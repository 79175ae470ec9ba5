/**
 * The string library of libstring.c: the FNV-1a hash of a string's bytes,
 * base conversion (itoa, int_to_string), interning through the VM's table
 * of strings, the '$'/'@' formatter, and the startsWith, endsWith,
 * contains, replace and iterator methods of String.
 *
 * A string's bytes are a seq<char> whose characters stand for bytes; where
 * the C code looks at a byte's bits the model takes the character's code
 * modulo 256.
 */
module LibString {
  import opened Lit
  import opened Wrappers
  import opened Table
  import Sds
  import Utf
  import Api

  // ---------------------------------------------------------------------
  // lit_hash_string

  const FNV_OFFSET_BASIS: bv32 := 2166136261
  const FNV_PRIME: bv32 := 16777619

  /** The byte a character stands for. */
  function ByteOf(c: char): bv8
  {
    (c as int % 256) as bv8
  }

  /** key[i] in `hash ^= key[i]`: a signed char, sign-extended to 32 bits. */
  function Widened(c: char): bv32
  {
    var b := ByteOf(c);
    if b < 0x80 then b as bv32 else (b as bv32) | 0xFFFF_FF00
  }

  /** XOR in a word, then multiply by the prime modulo 2^32. */
  function Mix(hash: bv32, x: bv32): bv32
  {
    (hash ^ x) * FNV_PRIME
  }

  /** One step of lit_hash_string. */
  function Step(hash: bv32, c: char): bv32
  {
    Mix(hash, Widened(c))
  }

  /** The hash lit_hash_string computes, over the first bytes first. */
  function Hash(s: seq<char>): bv32
  {
    if s == [] then FNV_OFFSET_BASIS else Step(Hash(s[..|s| - 1]), s[|s| - 1])
  }

  /** One step of the 32-bit FNV-1a hash as published, over an unsigned octet. */
  function FnvStep(hash: bv32, b: bv8): bv32
  {
    Mix(hash, b as bv32)
  }

  function Fnv1a(bytes: seq<bv8>): bv32
  {
    if bytes == [] then FNV_OFFSET_BASIS else FnvStep(Fnv1a(bytes[..|bytes| - 1]), bytes[|bytes| - 1])
  }

  function Bytes(s: seq<char>): (r: seq<bv8>)
    ensures |r| == |s| && forall i :: 0 <= i < |s| ==> r[i] == ByteOf(s[i])
  {
    seq(|s|, i requires 0 <= i < |s| => ByteOf(s[i]))
  }

  lemma StepAscii(hash: bv32, c: char)
    requires ByteOf(c) < 0x80
    ensures Step(hash, c) == FnvStep(hash, ByteOf(c))
  {
    assert Widened(c) == ByteOf(c) as bv32;
  }

  /** On bytes below 0x80 the sign extension changes nothing: the hash is FNV-1a. */
  lemma {:induction false} HashIsFnv1aOnAscii(s: seq<char>)
    requires forall i :: 0 <= i < |s| ==> ByteOf(s[i]) < 0x80
    ensures Hash(s) == Fnv1a(Bytes(s))
  {
    if s != [] {
      var p := s[..|s| - 1];
      HashIsFnv1aOnAscii(p);
      assert Bytes(s)[..|s| - 1] == Bytes(p);
      StepAscii(Hash(p), s[|s| - 1]);
    }
  }

  /** A byte at or above 0x80 is mixed in with its sign bits set, unlike FNV-1a. */
  lemma HighByteIsSignExtended(c: char)
    requires ByteOf(c) >= 0x80
    ensures Widened(c) != ByteOf(c) as bv32 && Widened(c) & 0xFF == ByteOf(c) as bv32
    ensures Widened(c) >> 8 == 0xFF_FFFF
  {
  }

  /** lit_hash_string */
  method HashString(key: seq<char>) returns (hash: bv32)
    ensures hash == Hash(key)
  {
    hash := FNV_OFFSET_BASIS;
    var i := 0;
    while i < |key|
      invariant i <= |key| && hash == Hash(key[..i])
    {
      assert key[..i + 1][..i] == key[..i];
      hash := Step(hash, key[i]);
      i := i + 1;
    }
    assert key[..i] == key;
  }

  // ---------------------------------------------------------------------
  // itoa

  /** The digit of 0 <= d < 36: '0'..'9', then 'a'..'z'. */
  function Glyph(d: nat): char
    requires d < 36
  {
    if d < 10 then (d + '0' as int) as char else (d - 10 + 'a' as int) as char
  }

  /** The value of a digit character, the inverse of Glyph. */
  function GlyphValue(c: char): int
  {
    if '0' <= c <= '9' then c as int - '0' as int
    else if 'a' <= c <= 'z' then c as int - 'a' as int + 10
    else -1
  }

  lemma GlyphRoundTrip(d: nat)
    requires d < 36
    ensures GlyphValue(Glyph(d)) == d
  {
  }

  /**
   * The itoa digit table "zyx...3210123...xyz" at index i: the digit of
   * |i - 35|, so that the table indexed by 35 plus a remainder of either sign
   * gives the remainder's digit.
   */
  function TableChar(i: int): char
    requires 0 <= i <= 70
  {
    if i >= 35 then Glyph(i - 35) else Glyph(35 - i)
  }

  /** C's division, which truncates toward zero. */
  function TruncDiv(a: int, b: int): int
    requires b > 0
  {
    if a >= 0 then a / b else -((-a) / b)
  }

  function Abs(a: int): nat { if a < 0 then -a else a }

  /** Euclidean division of a natural number by b, as the solver needs it spelled out. */
  lemma DivMod(v: nat, b: nat)
    requires 2 <= b
    ensures v == (v / b) * b + v % b && 0 <= v % b < b && v / b >= 0
    ensures v / b == 0 <==> v < b
    ensures v >= b ==> v / b < v
    ensures 2 * (v / b) <= v
  {
    var q := v / b;
    assert 2 * q <= b * q;
  }

  /** The digit the do/while loop writes, read off the table, is the digit of |a| mod b. */
  lemma TruncDivStep(a: int, b: int)
    requires 2 <= b <= 36
    ensures Abs(TruncDiv(a, b)) == Abs(a) / b
    ensures -35 <= a - TruncDiv(a, b) * b <= 35
    ensures TableChar(35 + (a - TruncDiv(a, b) * b)) == Glyph(Abs(a) % b)
    ensures TruncDiv(a, b) == 0 <==> Abs(a) < b
    ensures a >= 0 ==> TruncDiv(a, b) >= 0
    ensures a < 0 ==> TruncDiv(a, b) <= 0
    ensures Abs(TruncDiv(a, b)) <= Abs(a) && (Abs(a) >= b ==> Abs(TruncDiv(a, b)) < Abs(a))
  {
    var m := Abs(a);
    var q, r := m / b, m % b;
    DivMod(m, b);
    if a >= 0 {
      assert TruncDiv(a, b) == q;
      assert a - q * b == r;
    } else {
      assert TruncDiv(a, b) == -q;
      assert a - (-q) * b == -r;
    }
  }

  /** The digits of v in base b, least significant first, as the do/while loop produces them. */
  function RevBaseDigits(v: nat, b: nat): (r: seq<char>)
    requires 2 <= b <= 36
    ensures |r| >= 1
  {
    [Glyph(v % b)] + (if v < b then [] else RevBaseDigits(v / b, b))
  }

  /** The digits of v in base b, most significant first, without leading zeros. */
  function BaseDigits(v: nat, b: nat): (r: seq<char>)
    requires 2 <= b <= 36
    ensures |r| >= 1 && (|r| > 1 ==> r[0] != '0') && r[0] != '-'
  {
    if v < b then [Glyph(v)] else DivMod(v, b); BaseDigits(v / b, b) + [Glyph(v % b)]
  }

  /** The text itoa writes: empty for a base outside 2..36, else an optional '-' and the digits. */
  function ItoaText(value: int, base: int): seq<char>
  {
    if base < 2 || base > 36 then []
    else (if value < 0 then "-" else "") + BaseDigits(Abs(value), base)
  }

  /** Reading digits back in base b. */
  function ParseBase(s: seq<char>, b: nat): int
  {
    if s == [] then 0 else b * ParseBase(s[..|s| - 1], b) + GlyphValue(s[|s| - 1])
  }

  function ParseSignedBase(s: seq<char>, b: nat): int
  {
    if s != [] && s[0] == '-' then -ParseBase(s[1..], b) else ParseBase(s, b)
  }

  lemma {:induction false} BaseDigitsReversed(v: nat, b: nat)
    requires 2 <= b <= 36
    ensures Sds.Reverse(RevBaseDigits(v, b)) == BaseDigits(v, b)
  {
    DivMod(v, b);
    if v >= b {
      var q := v / b;
      var g := Glyph(v % b);
      BaseDigitsReversed(q, b);
      var xs := RevBaseDigits(v, b);
      assert xs == [g] + RevBaseDigits(q, b);
      assert xs[1..] == RevBaseDigits(q, b);
      assert Sds.Reverse(xs) == Sds.Reverse(xs[1..]) + [g];
    }
  }

  lemma ParseBaseSnoc(d: seq<char>, c: char, b: nat)
    ensures ParseBase(d + [c], b) == b * ParseBase(d, b) + GlyphValue(c)
  {
    assert (d + [c])[..|d|] == d;
  }

  lemma {:induction false} ParseBaseInverts(v: nat, b: nat)
    requires 2 <= b <= 36
    ensures ParseBase(BaseDigits(v, b), b) == v
  {
    if v < b {
      GlyphRoundTrip(v);
      ParseBaseSnoc([], Glyph(v), b);
      assert [] + [Glyph(v)] == BaseDigits(v, b);
    } else {
      DivMod(v, b);
      ParseBaseInverts(v / b, b);
      ParseBaseLast(v, b);
    }
  }

  /** The inductive step: the last digit adds v mod b to b times the value of the others. */
  lemma ParseBaseLast(v: nat, b: nat)
    requires 2 <= b <= 36 && v >= b && ParseBase(BaseDigits(v / b, b), b) == v / b
    ensures ParseBase(BaseDigits(v, b), b) == v
  {
    var q, r := v / b, v % b;
    DivMod(v, b);
    GlyphRoundTrip(r);
    ParseBaseSnoc(BaseDigits(q, b), Glyph(r), b);
    assert BaseDigits(v, b) == BaseDigits(q, b) + [Glyph(r)];
  }

  /** Reading back what itoa writes in a valid base gives the value. */
  lemma ItoaRoundTrip(value: int, base: int)
    requires 2 <= base <= 36
    ensures ParseSignedBase(ItoaText(value, base), base) == value
  {
    var d := BaseDigits(Abs(value), base);
    ParseBaseInverts(Abs(value), base);
    if value < 0 {
      assert ItoaText(value, base) == "-" + d;
      assert ItoaText(value, base)[1..] == d;
    } else {
      assert ItoaText(value, base) == d;
    }
  }

  /** The reversed loop output is the itoa text. */
  lemma ItoaTextFromRev(value: int, base: int)
    requires 2 <= base <= 36
    ensures var sign: seq<char> := if value < 0 then "-" else "";
      Sds.Reverse(RevBaseDigits(Abs(value), base) + sign) == ItoaText(value, base)
  {
    var sign: seq<char> := if value < 0 then "-" else "";
    Sds.ReverseConcat(RevBaseDigits(Abs(value), base), sign);
    BaseDigitsReversed(Abs(value), base);
    assert Sds.Reverse(sign) == sign;
  }

  /**
   * itoa: the digits of value in base go into result, least significant
   * first, then a '-' for a negative value and a NUL, and the text is then
   * reversed in place. value is a C int.
   */
  method Itoa(value: int, result: array<char>, base: int)
    requires -0x8000_0000 <= value < 0x8000_0000 && result.Length >= 34
    modifies result
    ensures var t := ItoaText(value, base); |t| < result.Length && result[..|t|] == t && result[|t|] == '\0'
  {
    if base < 2 || base > 36 {
      result[0] := '\0';
      return;
    }
    var p := WriteItoaDigits(value, result, base);
    ghost var digits := result[..p];
    if value < 0 {
      result[p] := '-';
      p := p + 1;
    }
    result[p] := '\0';
    ghost var sign: seq<char> := if value < 0 then "-" else "";
    assert result[..p] == digits + sign;
    Sds.ReverseInPlace(result, p);
    assert result[p] == result[p..][0];
    ItoaTextFromRev(value, base);
  }

  /** One pass of the do/while loop of itoa: the table digit of the remainder, then the rest of the digits. */
  lemma ItoaDigitStep(whole: seq<char>, pre: seq<char>, tmp: int, base: int, v: int, c: char)
    requires 2 <= base <= 36 && whole == pre + RevBaseDigits(Abs(tmp), base)
    requires v == TruncDiv(tmp, base) && -35 <= tmp - v * base <= 35 && c == TableChar(35 + (tmp - v * base))
    ensures whole == (pre + [c]) + (if v == 0 then [] else RevBaseDigits(Abs(v), base))
  {
    TruncDivStep(tmp, base);
  }

  /** The do/while loop of itoa. */
  method WriteItoaDigits(value: int, result: array<char>, base: int) returns (p: nat)
    requires -0x8000_0000 <= value < 0x8000_0000 && result.Length >= 34 && 2 <= base <= 36
    modifies result
    ensures p == |RevBaseDigits(Abs(value), base)| && p + 1 < result.Length
    ensures result[..p] == RevBaseDigits(Abs(value), base)
  {
    Pow2ThirtyTwo();
    RevBaseDigitsLength(Abs(value), base, 32);
    ghost var whole := RevBaseDigits(Abs(value), base);
    var v := value;
    p := 0;
    while true
      invariant Abs(v) <= Abs(value) && p < |whole|
      invariant whole == result[..p] + RevBaseDigits(Abs(v), base)
      decreases Abs(v)
    {
      var tmp := v;
      ghost var pre := result[..p];
      TruncDivStep(tmp, base);
      v := TruncDiv(tmp, base);
      var c := TableChar(35 + (tmp - v * base));
      ItoaDigitStep(whole, pre, tmp, base, v, c);
      Sds.PutChar(result, p, c);
      p := p + 1;
      assert result[..p] == pre + [c];
      if v == 0 {
        assert whole == result[..p];
        return;
      }
    }
  }

  /** A value below 2^k has at most k digits in any base of at least 2. */
  lemma {:induction false} RevBaseDigitsLength(v: nat, b: nat, k: nat)
    requires 2 <= b <= 36 && k >= 1 && v < Pow2(k)
    ensures |RevBaseDigits(v, b)| <= k
  {
    DivMod(v, b);
    if v >= b {
      assert Pow2(k) == 2 * Pow2(k - 1);
      RevBaseDigitsLength(v / b, b, k - 1);
    }
  }

  function Pow2(k: nat): (r: nat)
    ensures r >= 1
  {
    if k == 0 then 1 else 2 * Pow2(k - 1)
  }

  lemma Pow2ThirtyTwo()
    ensures Pow2(32) == 0x1_0000_0000
  {
    assert Pow2(4) == 16;
    assert Pow2(8) == 256;
    assert Pow2(12) == 4096;
    assert Pow2(16) == 65536;
    assert Pow2(20) == 0x10_0000;
    assert Pow2(24) == 0x100_0000;
    assert Pow2(28) == 0x1000_0000;
  }

  // ---------------------------------------------------------------------
  // int_to_string

  /** C's remainder, whose sign follows the dividend. */
  function TruncRem(a: int, b: int): int
    requires b > 0
  {
    a - TruncDiv(a, b) * b
  }

  /** The digit character '0' - x % 10 of int_to_string_helper, for x <= 0. */
  function NegDigit(x: int): char
    requires x <= 0
  {
    ('0' as int - TruncRem(x, 10)) as char
  }

  lemma NegDigitIs(x: int)
    requires x <= 0
    ensures NegDigit(x) == Sds.DigitChar((-x) % 10)
    ensures x <= -10 ==> TruncDiv(x, 10) == -((-x) / 10) && (-x) / 10 >= 1
  {
  }

  /**
   * int_to_string_helper: writes the digits of -x (x <= 0) using at most n
   * characters; None (its NULL) when they do not fit.
   */
  function IntToStringHelper(n: nat, x: int): (r: Option<seq<char>>)
    requires x <= 0
    ensures r.Some? <==> n >= |Sds.Digits(-x)|
    ensures r.Some? ==> r.value == Sds.Digits(-x)
  {
    NegDigitIs(x);
    if n == 0 then None
    else if x <= -10 then
      match IntToStringHelper(n - 1, TruncDiv(x, 10))
      case None => None
      case Some(d) => Some(d + [NegDigit(x)])
    else Some([NegDigit(x)])
  }

  /**
   * int_to_string(dest, n, x) for a C int x: the text written into the n
   * bytes of dest, NUL included, or None (NULL) when it does not fit.
   */
  function IntToString(n: nat, x: int): (r: Option<seq<char>>)
    requires -0x8000_0000 <= x < 0x8000_0000
    ensures r.Some? <==> n >= |Sds.SignedDecimal(x)| + 1
    ensures r.Some? ==> r.value == Sds.SignedDecimal(x) + ['\0']
  {
    if n == 0 then None
    else if x < 0 then
      if n - 1 == 0 then None
      else
        match IntToStringHelper(n - 2, x)
        case None => None
        case Some(d) => Some("-" + d + ['\0'])
    else
      match IntToStringHelper(n - 1, -x)
      case None => None
      case Some(d) => Some(d + ['\0'])
  }

  /** The text int_to_string writes reads back as x, INT_MIN included. */
  lemma IntToStringRoundTrip(n: nat, x: int)
    requires -0x8000_0000 <= x < 0x8000_0000 && IntToString(n, x).Some?
    ensures var t := IntToString(n, x).value; t[|t| - 1] == '\0' && Sds.ParseSigned(t[..|t| - 1]) == x
  {
    var t := IntToString(n, x).value;
    assert t[..|t| - 1] == Sds.SignedDecimal(x);
    Sds.SignedRoundTrip(x);
  }

  /** A number with k decimal digits is written with exactly k characters. */
  lemma {:induction false} DigitsCount(v: nat, k: nat)
    requires k >= 1 && Sds.Pow10(k - 1) <= v < Sds.Pow10(k)
    ensures |Sds.Digits(v)| == k
  {
    if k > 1 {
      assert Sds.Pow10(k) == 10 * Sds.Pow10(k - 1) && Sds.Pow10(k - 1) == 10 * Sds.Pow10(k - 2);
      DigitsCount(v / 10, k - 1);
    }
  }

  /** The edge cases: INT_MIN, whose negation is no C int, needs 12 bytes, and 0 needs 2. */
  lemma IntToStringEdges()
    ensures |Sds.SignedDecimal(-0x8000_0000)| == 11
    ensures IntToString(12, -0x8000_0000).Some? && IntToString(11, -0x8000_0000) == None
    ensures IntToString(2, 0) == Some("0\0") && IntToString(1, 0) == None
  {
    assert Sds.Pow10(9) == 1_000_000_000 by {
      assert Sds.Pow10(3) == 1000;
      assert Sds.Pow10(6) == 1000 * Sds.Pow10(3);
      assert Sds.Pow10(9) == 1000 * Sds.Pow10(6);
    }
    DigitsCount(2147483648, 10);
    assert Sds.SignedDecimal(-0x8000_0000) == "-" + Sds.Digits(2147483648);
    assert Sds.SignedDecimal(0) + ['\0'] == "0\0";
  }

  // ---------------------------------------------------------------------
  // Interning

  /** Every key of the strings table carries the hash of its bytes. */
  ghost predicate WellHashed(m: map<Str, Value>)
  {
    forall k :: k in m ==> k.hash == Hash(k.chars)
  }

  /** No two keys of the strings table hold the same bytes. */
  ghost predicate Distinct(m: map<Str, Value>)
  {
    forall k1, k2 :: k1 in m && k2 in m && k1.chars == k2.chars ==> k1 == k2
  }

  /** Whether the table already holds a string with these bytes and hash. */
  ghost predicate HasString(m: map<Str, Value>, chars: seq<char>, hash: bv32)
  {
    exists k :: k in m && k.chars == chars && k.hash == hash
  }

  /** lit_register_string: a non-empty string becomes a key of the strings table (with value null). */
  method Register(strings: Table, s: Str)
    requires strings.Valid()
    modifies strings, strings.entries
    ensures strings.Valid()
    ensures strings.Contents() == if |s.chars| > 0 then old(strings.Contents())[s := NULL_VALUE] else old(strings.Contents())
  {
    if |s.chars| > 0 {
      var _ := strings.Set(s, NULL_VALUE);
    }
  }

  /**
   * lit_string_copy and lit_string_take: the interned string with these
   * bytes when there is one; otherwise a new string object at addr, which
   * is registered. (The two differ only in who owns the byte buffer.)
   */
  method StringCopy(strings: Table, chars: seq<char>, addr: Ptr) returns (s: Str)
    requires strings.Valid()
    modifies strings, strings.entries
    ensures strings.Valid() && s.chars == chars && s.hash == Hash(chars)
    ensures HasString(old(strings.Contents()), chars, Hash(chars)) ==>
      s in old(strings.Contents()) && strings.Contents() == old(strings.Contents())
    ensures !HasString(old(strings.Contents()), chars, Hash(chars)) ==>
      fresh(s) && s.addr == addr &&
      strings.Contents() == if |chars| > 0 then old(strings.Contents())[s := NULL_VALUE] else old(strings.Contents())
    ensures WellHashed(old(strings.Contents())) ==> WellHashed(strings.Contents())
    ensures WellHashed(old(strings.Contents())) && Distinct(old(strings.Contents())) ==> Distinct(strings.Contents())
  {
    var hash := HashString(chars);
    var interned := strings.FindString(chars, hash);
    if interned != null {
      return interned;
    }
    s := new Str(addr, chars, hash);
    Register(strings, s);
  }

  // ---------------------------------------------------------------------
  // lit_string_format

  /** The characters of a format that consume an argument. */
  predicate IsDirective(ch: char) { ch == '$' || ch == '@' || ch == '#' }

  /** How many arguments a format consumes: one per directive. */
  function Directives(format: seq<char>): nat
  {
    if format == [] then 0
    else (if IsDirective(format[0]) then 1 else 0) + Directives(format[1..])
  }

  /**
   * The text lit_string_format builds. Each argument is the text its
   * directive splices in: the bytes of a '$' C string or of an '@' string
   * value, or the rendering of a '#' double (double formatting is not
   * modelled, so that text is given). None stands for a NULL C string or a
   * value that is not a string, in which case the directive character
   * itself is copied.
   */
  function Formatted(format: seq<char>, args: seq<Option<seq<char>>>): seq<char>
    requires |args| >= Directives(format)
  {
    if format == [] then []
    else if IsDirective(format[0]) then
      (if args[0].Some? then args[0].value else [format[0]]) + Formatted(format[1..], args[1..])
    else [format[0]] + Formatted(format[1..], args)
  }

  /** A format without directives is copied unchanged. */
  lemma {:induction false} FormattedPlain(format: seq<char>, args: seq<Option<seq<char>>>)
    requires forall i :: 0 <= i < |format| ==> !IsDirective(format[i])
    ensures Directives(format) == 0 && Formatted(format, args) == format
  {
    if format != [] {
      FormattedPlain(format[1..], args);
    }
  }

  /** Each directive is replaced by its argument, or kept when the argument is missing. */
  lemma FormattedExamples()
    ensures Formatted("@:@", [Some("Foo"), Some("bar")]) == "Foo:bar"
    ensures Formatted("class @", [None]) == "class @"
    ensures Formatted("$!", [Some("")]) == "!"
  {
    assert Formatted(":@", [Some("bar")]) == ":bar";
    assert Formatted("@", [None]) == "@";
  }

  /**
   * lit_string_format: the text is built directive by directive, hashed and
   * registered as a new string object at addr. A format is a C string, so
   * it holds no NUL.
   */
  method Format(strings: Table, format: seq<char>, args: seq<Option<seq<char>>>, addr: Ptr) returns (s: Str)
    requires strings.Valid() && '\0' !in format && |args| >= Directives(format)
    modifies strings, strings.entries
    ensures strings.Valid() && fresh(s) && s.addr == addr
    ensures s.chars == Formatted(format, args) && s.hash == Hash(s.chars)
    ensures strings.Contents() == if |s.chars| > 0 then old(strings.Contents())[s := NULL_VALUE] else old(strings.Contents())
  {
    var result := FormatText(format, args);
    var hash := HashString(result);
    s := new Str(addr, result, hash);
    Register(strings, s);
  }

  /** The loop of lit_string_format over the format's characters. */
  method FormatText(format: seq<char>, args: seq<Option<seq<char>>>) returns (result: seq<char>)
    requires |args| >= Directives(format)
    ensures result == Formatted(format, args)
  {
    ghost var whole := Formatted(format, args);
    result := [];
    var c := 0;
    var a := 0;
    while c < |format|
      invariant c <= |format| && a <= |args| && |args| - a >= Directives(format[c..])
      invariant result + Formatted(format[c..], args[a..]) == whole
    {
      ghost var pre := result;
      ghost var after := FormatStep(format, c, args, a);
      var ch := format[c];
      var piece: seq<char>;
      if IsDirective(ch) {
        var arg := args[a];
        a := a + 1;
        piece := if arg.Some? then arg.value else [ch];
      } else {
        piece := [ch];
      }
      result := result + piece;
      Regroup(pre, piece, after, whole);
      c := c + 1;
    }
    assert format[c..] == [];
  }

  /** One character of the format: what the rest of the format yields after it. */
  lemma FormatStep(format: seq<char>, c: nat, args: seq<Option<seq<char>>>, a: nat) returns (after: seq<char>)
    requires c < |format| && a <= |args| && |args| - a >= Directives(format[c..])
    ensures IsDirective(format[c]) ==>
      (a < |args| && |args| - (a + 1) >= Directives(format[c + 1..]) &&
       after == Formatted(format[c + 1..], args[a + 1..]) &&
       Formatted(format[c..], args[a..]) == (if args[a].Some? then args[a].value else [format[c]]) + after)
    ensures !IsDirective(format[c]) ==>
      (|args| - a >= Directives(format[c + 1..]) &&
       after == Formatted(format[c + 1..], args[a..]) &&
       Formatted(format[c..], args[a..]) == [format[c]] + after)
  {
    assert format[c..][1..] == format[c + 1..];
    if IsDirective(format[c]) {
      assert args[a..][1..] == args[a + 1..];
      after := Formatted(format[c + 1..], args[a + 1..]);
    } else {
      after := Formatted(format[c + 1..], args[a..]);
    }
  }

  // ---------------------------------------------------------------------
  // startsWith, endsWith, contains

  /** objfn_string_startswith: the same object, or each byte of sub equals the one at its index. */
  method StartsWith(str: Str, sub: Str) returns (r: bool)
    ensures r <==> |sub.chars| <= |str.chars| && str.chars[..|sub.chars|] == sub.chars
  {
    if sub == str {
      return true;
    }
    if |sub.chars| > |str.chars| {
      return false;
    }
    var i := 0;
    while i < |sub.chars|
      invariant i <= |sub.chars| && sub.chars[..i] == str.chars[..i]
    {
      if sub.chars[i] != str.chars[i] {
        assert str.chars[..|sub.chars|][i] != sub.chars[i];
        return false;
      }
      i := i + 1;
    }
    return true;
  }

  /** objfn_string_endswith: the same object, or each byte of sub equals the one as far from the end. */
  method EndsWith(str: Str, sub: Str) returns (r: bool)
    ensures r <==> |sub.chars| <= |str.chars| && str.chars[|str.chars| - |sub.chars|..] == sub.chars
  {
    if sub == str {
      return true;
    }
    if |sub.chars| > |str.chars| {
      return false;
    }
    var start := |str.chars| - |sub.chars|;
    var i := 0;
    while i < |sub.chars|
      invariant i <= |sub.chars| && sub.chars[..i] == str.chars[start..start + i]
    {
      if sub.chars[i] != str.chars[i + start] {
        assert str.chars[start..][i] != sub.chars[i];
        return false;
      }
      i := i + 1;
    }
    assert str.chars[start..] == str.chars[start..start + i];
    return true;
  }

  /** What C sees of a byte sequence: the bytes before the first NUL. */
  function CView(s: seq<char>): (r: seq<char>)
    ensures '\0' !in r && |r| <= |s| && r == s[..|r|]
    ensures '\0' !in s ==> r == s
  {
    if s == [] || s[0] == '\0' then [] else [s[0]] + CView(s[1..])
  }

  /** t occurs in s. */
  predicate Occurs(t: seq<char>, s: seq<char>)
  {
    exists i: nat :: i <= |s| && OccursAt(t, s, i)
  }

  /** t occurs in s at index i. */
  predicate OccursAt(t: seq<char>, s: seq<char>, i: nat)
  {
    i + |t| <= |s| && s[i..i + |t|] == t
  }

  /** objfn_string_contains: the same object, or strstr finds sub in the str. */
  function Contains(str: Str, sub: Str): (r: bool)
    ensures r <==> sub == str || Occurs(CView(sub.chars), CView(str.chars))
    ensures '\0' !in str.chars && '\0' !in sub.chars ==> (r <==> Occurs(sub.chars, str.chars))
    ensures |sub.chars| == 0 ==> r
  {
    assert OccursAt([], CView(str.chars), 0);
    assert sub.chars[0..|sub.chars|] == sub.chars;
    assert OccursAt(sub.chars, sub.chars, 0);
    sub == str || Occurs(CView(sub.chars), CView(str.chars))
  }

  /** A prefix is contained. */
  lemma PrefixContained(str: Str, sub: Str)
    requires '\0' !in str.chars && '\0' !in sub.chars
    requires |sub.chars| <= |str.chars| && str.chars[..|sub.chars|] == sub.chars
    ensures Contains(str, sub)
  {
    assert OccursAt(sub.chars, str.chars, 0);
  }

  // ---------------------------------------------------------------------
  // replace

  /** strncmp(a, b, n) == 0 for the C strings a and b (each followed by its NUL). */
  function StrnEq(a: seq<char>, b: seq<char>, n: nat): bool
  {
    if n == 0 then true
    else
      var ca := if a == [] then '\0' else a[0];
      var cb := if b == [] then '\0' else b[0];
      ca == cb && (ca == '\0' || StrnEq(a[1..], b[1..], n - 1))
  }

  /** For a pattern without NUL, strncmp over its length finds exactly a prefix. */
  lemma {:induction false} StrnEqPrefix(a: seq<char>, b: seq<char>)
    requires '\0' !in b
    ensures StrnEq(a, b, |b|) <==> |b| <= |a| && a[..|b|] == b
  {
    if b != [] {
      assert '\0' !in b[1..];
      StrnEqPrefix(if a == [] then [] else a[1..], b[1..]);
      if a != [] && a[0] == b[0] {
        assert a[..|b|] == [a[0]] + a[1..][..|b| - 1] <== |b| <= |a|;
      }
    }
  }

  /**
   * The text replace builds: scanning from i, a match of what (as strncmp
   * sees it) is replaced by with and skipped, any other byte is copied.
   */
  function Replaced(s: seq<char>, what: seq<char>, with: seq<char>, i: nat): seq<char>
    requires |what| > 0
    decreases |s| - i
  {
    if i >= |s| then []
    else if StrnEq(s[i..], what, |what|) then with + Replaced(s, what, with, i + |what|)
    else [s[i]] + Replaced(s, what, with, i + 1)
  }

  /** Replacing a NUL-free pattern by itself changes nothing. */
  lemma {:induction false} ReplaceByItself(s: seq<char>, what: seq<char>, i: nat)
    requires |what| > 0 && '\0' !in what && i <= |s|
    ensures Replaced(s, what, what, i) == s[i..]
    decreases |s| - i
  {
    if i < |s| {
      StrnEqPrefix(s[i..], what);
      ReplacedNext(s, what, what, i);
      if StrnEq(s[i..], what, |what|) {
        ReplaceByItself(s, what, i + |what|);
        assert s[i..][..|what|] == what;
        assert s[i..] == s[i..][..|what|] + s[i + |what|..];
      } else {
        ReplaceByItself(s, what, i + 1);
        assert s[i..] == [s[i]] + s[i + 1..];
      }
    }
  }

  /** With no occurrence of a NUL-free pattern, the text is unchanged. */
  lemma {:induction false} ReplaceAbsent(s: seq<char>, what: seq<char>, with: seq<char>, i: nat)
    requires |what| > 0 && '\0' !in what && i <= |s| && !Occurs(what, s)
    ensures Replaced(s, what, with, i) == s[i..]
    decreases |s| - i
  {
    if i < |s| {
      assert !OccursAt(what, s, i);
      StrnEqPrefix(s[i..], what);
      assert !StrnEq(s[i..], what, |what|) by {
        if i + |what| <= |s| {
          assert s[i..][..|what|] == s[i..i + |what|];
        }
      }
      ReplaceAbsent(s, what, with, i + 1);
      assert s[i..] == [s[i]] + s[i + 1..];
    }
  }

  /** Every occurrence is replaced, scanning left to right without overlap. */
  lemma ReplaceExample()
    ensures Replaced("aaa", "aa", "b", 0) == "ba"
    ensures Replaced("a.b", ".", "::", 0) == "a::b"
  {
    assert StrnEq("aaa", "aa", 2);
    assert !StrnEq("a", "aa", 2);
    assert !StrnEq("a.b", ".", 1) && StrnEq(".b", ".", 1) && !StrnEq("b", ".", 1);
  }

  /** 2^64: size_t, the type of replace's loop index, wraps at this. */
  const SIZE_LIMIT := 0x1_0000_0000_0000_0000

  /**
   * Where replace's loops go on from index i after a match of a pattern
   * of the given length: i += length - 1 and then i++, in size_t.
   */
  function NextAfterMatch(i: nat, length: nat): (j: nat)
    requires i < SIZE_LIMIT && length < SIZE_LIMIT
    ensures j < SIZE_LIMIT
  {
    ((i + (length - 1) % SIZE_LIMIT) % SIZE_LIMIT + 1) % SIZE_LIMIT
  }

  /**
   * As written, an empty what matches everywhere (strncmp over no bytes)
   * and the step after the match, length - 1 wrapping to SIZE_MAX and
   * then one more, brings i back to where it was: the first pass of
   * replace never ends on a non-empty string.
   */
  lemma EmptyWhatStandsStill(s: seq<char>, i: nat)
    requires i < |s| < SIZE_LIMIT
    ensures StrnEq(s[i..], [], 0) && NextAfterMatch(i, 0) == i
  {
  }

  /** With a pattern of at least one byte the step is the plain skip over the match, as Replaced takes it. */
  lemma NextAfterMatchSkips(i: nat, length: nat)
    requires 0 < length && i + length < SIZE_LIMIT
    ensures NextAfterMatch(i, length) == i + length
  {
    assert (length - 1) % SIZE_LIMIT == length - 1;
  }

  /**
   * objfn_string_replace: a first pass measures the result, a second writes
   * it into a buffer of that length, which is then interned. The arguments
   * are None when not string values. The source loops forever on an empty
   * what (EmptyWhatStandsStill); here an empty what replaces nothing and
   * the string comes back as it is.
   */
  method Replace(strings: Table, str: Str, what: Option<Str>, with: Option<Str>, addr: Ptr) returns (r: Result<Str, seq<char>>)
    requires strings.Valid()
    modifies strings, strings.entries
    ensures strings.Valid()
    ensures what.None? || with.None? ==> r == Failure("expected 2 string arguments") && strings.Contents() == old(strings.Contents())
    ensures what.Some? && with.Some? && what.value.chars == [] ==> r == Success(str)
    ensures what.Some? && with.Some? && what.value.chars != [] ==>
      (r.Success? && r.value.chars == Replaced(str.chars, what.value.chars, with.value.chars, 0) &&
       r.value.hash == Hash(r.value.chars))
  {
    if what.None? || with.None? {
      return Failure("expected 2 string arguments");
    }
    var w, t := what.value.chars, with.value.chars;
    if |w| == 0 {
      return Success(str);
    }
    var bufferLength := ReplacedLength(str.chars, w, t);
    var buffer := new char[bufferLength + 1];
    WriteReplaced(str.chars, w, t, buffer);
    buffer[bufferLength] := '\0';
    var s := StringCopy(strings, buffer[..bufferLength], addr);
    return Success(s);
  }

  /** The first pass of replace: the length of the result. */
  method ReplacedLength(s: seq<char>, what: seq<char>, with: seq<char>) returns (n: nat)
    requires |what| > 0
    ensures n == |Replaced(s, what, with, 0)|
  {
    n := 0;
    var i := 0;
    while i < |s|
      invariant n + |Replaced(s, what, with, i)| == |Replaced(s, what, with, 0)|
      decreases |s| - i
    {
      if StrnEq(s[i..], what, |what|) {
        i := i + |what| - 1;
        n := n + |with|;
      } else {
        n := n + 1;
      }
      i := i + 1;
    }
  }

  /** The second pass of replace: the result goes into the front of buffer. */
  method WriteReplaced(s: seq<char>, what: seq<char>, with: seq<char>, buffer: array<char>)
    requires |what| > 0 && |Replaced(s, what, with, 0)| < buffer.Length
    modifies buffer
    ensures buffer[..|Replaced(s, what, with, 0)|] == Replaced(s, what, with, 0)
  {
    ghost var whole := Replaced(s, what, with, 0);
    var bufferIndex: nat := 0;
    var i: nat := 0;
    while i < |s|
      invariant bufferIndex <= |whole| < buffer.Length
      invariant bufferIndex + |Replaced(s, what, with, i)| == |whole|
      invariant buffer[..bufferIndex] + Replaced(s, what, with, i) == whole
      decreases |s| - i
    {
      ghost var pre := buffer[..bufferIndex];
      if StrnEq(s[i..], what, |what|) {
        ghost var after := Replaced(s, what, with, i + |what|);
        assert Replaced(s, what, with, i) == with + after;
        CopyInto(buffer, bufferIndex, with);
        Regroup(pre, with, after, whole);
        bufferIndex := bufferIndex + |with|;
        i := i + |what| - 1;
      } else {
        ghost var after := Replaced(s, what, with, i + 1);
        assert Replaced(s, what, with, i) == [s[i]] + after;
        buffer[bufferIndex] := s[i];
        assert buffer[..bufferIndex + 1] == pre + [s[i]];
        Regroup(pre, [s[i]], after, whole);
        bufferIndex := bufferIndex + 1;
      }
      i := i + 1;
    }
  }

  /** One step of the scan that replace makes. */
  lemma ReplacedNext(s: seq<char>, what: seq<char>, with: seq<char>, i: nat)
    requires |what| > 0 && i < |s|
    ensures Replaced(s, what, with, i) ==
      if StrnEq(s[i..], what, |what|) then with + Replaced(s, what, with, i + |what|)
      else [s[i]] + Replaced(s, what, with, i + 1)
  {
  }

  lemma Regroup(pre: seq<char>, piece: seq<char>, after: seq<char>, whole: seq<char>)
    requires pre + (piece + after) == whole
    ensures (pre + piece) + after == whole
  {
  }

  /** memcpy of t to position at of buffer, seen as extending the written prefix. */
  method CopyInto(buffer: array<char>, at: nat, t: seq<char>)
    requires at + |t| <= buffer.Length
    modifies buffer
    ensures buffer[..at + |t|] == old(buffer[..at]) + t
  {
    var k := 0;
    while k < |t|
      invariant k <= |t| && buffer[..at + k] == old(buffer[..at]) + t[..k]
    {
      buffer[at + k] := t[k];
      assert buffer[..at + k + 1] == buffer[..at + k] + [t[k]];
      assert t[..k + 1] == t[..k] + [t[k]];
      k := k + 1;
    }
  }

  // ---------------------------------------------------------------------
  // iterator

  /** A byte of the form 10xxxxxx, the continuation of a UTF-8 sequence. */
  predicate IsContinuation(c: char)
  {
    Utf.IsContinuation(ByteOf(c))
  }

  /**
   * objfn_string_iterator: from null, index 0 (or null for an empty
   * str); from an index, the next index that does not hold a
   * continuation byte, or null past the end.
   */
  method StringIterator(str: Str, argument: Option<int>) returns (r: Option<int>)
    ensures argument.None? ==> r == if |str.chars| == 0 then None else Some(0)
    ensures argument.Some? && argument.value < 0 ==> r == None
    ensures argument.Some? && argument.value >= 0 ==>
      match r
      case None => forall j :: argument.value < j < |str.chars| ==> IsContinuation(str.chars[j])
      case Some(n) =>
        (argument.value < n < |str.chars| && !IsContinuation(str.chars[n]) &&
         forall j :: argument.value < j < n ==> IsContinuation(str.chars[j]))
  {
    if argument.None? {
      if |str.chars| == 0 {
        return None;
      }
      return Some(0);
    }
    var index := argument.value;
    if index < 0 {
      return None;
    }
    while true
      invariant argument.value <= index
      invariant forall j :: argument.value < j <= index && j < |str.chars| ==> IsContinuation(str.chars[j])
      decreases |str.chars| - index
    {
      index := index + 1;
      if index >= |str.chars| {
        return None;
      }
      if !IsContinuation(str.chars[index]) {
        return Some(index);
      }
    }
  }

  /**
   * objfn_string_iterator with its argument check: null starts the
   * iteration, a number is the last index (as the int toInt converts it
   * to), and anything else is a runtime error.
   */
  method NativeStringIterator(str: Str, args: seq<Value>, toInt: Value -> int, typeName: Value -> string)
    returns (r: Result<Option<int>, Api.ArgError>)
    requires 1 <= |args| < 256
    ensures r.Failure? <==> !IsNull(args[0]) && !IsNumber(args[0])
    ensures r.Failure? ==> r.error == Api.NotANumber(0, typeName(args[0]))
    ensures IsNull(args[0]) ==> r == Success(if |str.chars| == 0 then None else Some(0))
    ensures IsNumber(args[0]) && toInt(args[0]) < 0 ==> r == Success(None)
    ensures IsNumber(args[0]) && toInt(args[0]) >= 0 ==> r.Success?
    ensures IsNumber(args[0]) && toInt(args[0]) >= 0 && r.Success? ==>
      var from := toInt(args[0]);
      match r.value
      case None => forall j :: from < j < |str.chars| ==> IsContinuation(str.chars[j])
      case Some(n) =>
        (from < n < |str.chars| && !IsContinuation(str.chars[n]) &&
         forall j :: from < j < n ==> IsContinuation(str.chars[j]))
  {
    if IsNull(args[0]) {
      var first := StringIterator(str, None);
      return Success(first);
    }
    Api.CheckNumberAccepts(args, 0, typeName);
    var index := Api.CheckNumber(args, 0, typeName);
    if index.Failure? {
      return Failure(index.error);
    }
    var next := StringIterator(str, Some(toInt(args[0])));
    return Success(next);
  }
}
