/**
 * The dynamic strings of sds.h. A string is a character buffer holding its
 * content, a terminating NUL and free space; the header's length and
 * allocation are the fields `len` and (for every type but the one-byte
 * header of SDS_TYPE_5) the buffer size. The byte layout of the headers is
 * not modelled.
 */
module Sds {
  import opened Wrappers

  const SDS_MAX_PREALLOC: nat := 1024 * 1024
  const SDS_LLSTR_SIZE: nat := 21

  /** The header kinds, by the largest length they can record. */
  datatype SdsType = Type5 | Type8 | Type16 | Type32 | Type64

  /** sdsReqType: the smallest header whose length field can hold the size. */
  function ReqType(size: nat): (t: SdsType)
    ensures t == Type5 <==> size < 32
    ensures t == Type8 <==> 32 <= size < 256
    ensures t == Type16 <==> 256 <= size < 65536
    ensures t == Type32 <==> 65536 <= size < 0x1_0000_0000
    ensures t == Type64 <==> 0x1_0000_0000 <= size
  {
    if size < 32 then Type5
    else if size < 256 then Type8
    else if size < 65536 then Type16
    else if size < 0x1_0000_0000 then Type32
    else Type64
  }

  /** The allocation sdsMakeRoomFor chooses for a needed length: double it below 1 MiB, add 1 MiB above. */
  function GrownAlloc(needed: nat): nat
  {
    if needed < SDS_MAX_PREALLOC then needed * 2 else needed + SDS_MAX_PREALLOC
  }

  /** A fresh buffer holding t and a terminating NUL (the copy of sdsnewlen). */
  method NewBuffer(t: seq<char>, size: nat) returns (a: array<char>)
    requires |t| < size
    ensures fresh(a) && a.Length == size && a[..|t|] == t && a[|t|] == '\0'
  {
    a := new char[size];
    var i := 0;
    while i < |t|
      invariant i <= |t| && a[..i] == t[..i]
    {
      a[i] := t[i];
      i := i + 1;
    }
    a[|t|] := '\0';
  }

  class SdsString {
    var buf: array<char>
    var len: nat
    /** SDS_TYPE_5: the header records only the length, so the allocation reads as the length. */
    var small: bool

    predicate Valid()
      reads this, buf
    {
      len < buf.Length && buf[len] == '\0' && (small ==> len < 32)
    }

    /** The string's bytes, sdslen of them. */
    function Content(): seq<char>
      reads this, buf
      requires Valid()
    {
      buf[..len]
    }

    /** sdsalloc */
    function Alloc(): nat
      reads this, buf
      requires Valid()
    {
      if small then len else buf.Length - 1
    }

    /** sdsavail */
    function Avail(): nat
      reads this, buf
      requires Valid()
    {
      Alloc() - len
    }

    /** sdsnewlen: a string holding init with no free space; SDS_TYPE_5 is used only for non-empty strings. */
    constructor NewLen(init: seq<char>)
      ensures Valid() && Content() == init && Avail() == 0 && fresh(buf)
      ensures small <==> ReqType(|init|) == Type5 && |init| > 0
    {
      var a := NewBuffer(init, |init| + 1);
      buf := a;
      len := |init|;
      small := 0 < |init| < 32;
    }

    /**
     * sdsMakeRoomFor: afterwards at least addlen bytes are free. The content
     * never changes; a string short of room moves to a buffer of
     * GrownAlloc(len + addlen) bytes and never keeps the SDS_TYPE_5 header.
     */
    method MakeRoomFor(addlen: nat)
      requires Valid()
      modifies this
      ensures Valid() && Content() == old(Content()) && len == old(len) && Avail() >= addlen
      ensures old(Avail()) >= addlen ==> buf == old(buf) && small == old(small)
      ensures old(Avail()) < addlen ==> fresh(buf) && !small && Alloc() == GrownAlloc(len + addlen)
    {
      if Avail() >= addlen {
        return;
      }
      var newlen := GrownAlloc(len + addlen);
      var a := NewBuffer(buf[..len], newlen + 1);
      buf := a;
      small := false;
    }

    /** sdscatlen: appends t; the string stays NUL-terminated. */
    method CatLen(t: seq<char>)
      requires Valid()
      modifies this, buf
      ensures Valid() && Content() == old(Content()) + t
      ensures old(Avail()) < |t| ==> Alloc() == GrownAlloc(old(len) + |t|)
      ensures buf == old(buf) || fresh(buf)
    {
      var curlen := len;
      MakeRoomFor(|t|);
      CopyIn(curlen, t);
      buf[curlen + |t|] := '\0';
      len := curlen + |t|;
    }

    /** The memcpy of sdscatlen: t lands at position at, the bytes before it stay. */
    method CopyIn(at: nat, t: seq<char>)
      requires at + |t| < buf.Length
      modifies buf
      ensures buf[..at + |t|] == old(buf[..at]) + t
    {
      var i := 0;
      while i < |t|
        invariant i <= |t| && buf[..at] == old(buf[..at])
        invariant buf[at..at + i] == t[..i]
      {
        buf[at + i] := t[i];
        i := i + 1;
      }
      assert buf[..at + |t|] == buf[..at] + buf[at..at + |t|];
    }

    /**
     * sdstrim: drops the longest prefix, then the longest remaining suffix,
     * made of characters strchr finds in cset (which includes the NUL).
     */
    method Trim(cset: seq<char>)
      requires Valid()
      modifies this`len, buf
      ensures Valid() && Content() == Trimmed(old(Content()), cset)
    {
      var sp, n := TrimBounds(cset);
      MoveDown(sp, n);
      buf[n] := '\0';
      len := n;
    }

    /** The two scans of sdstrim: where the kept part starts and how long it is. */
    method TrimBounds(cset: seq<char>) returns (sp: nat, n: nat)
      requires Valid()
      ensures sp + n <= len && buf[sp..sp + n] == Trimmed(Content(), cset)
    {
      var l := len;
      ghost var s := buf[..l];
      sp := 0;
      while sp < l && InCset(buf[sp], cset)
        invariant sp <= l && LeadingIn(s, cset, sp) == LeadingIn(s, cset, 0)
      {
        sp := sp + 1;
      }
      var ep := l;
      while ep > sp + 1 && InCset(buf[ep - 1], cset)
        invariant sp <= ep <= l
        invariant sp < l ==> sp < ep && TrailingIn(s, cset, sp, ep) == TrailingIn(s, cset, sp, l)
      {
        ep := ep - 1;
      }
      n := if sp >= ep then 0 else ep - sp;
      assert s[sp..sp + n] == Trimmed(s, cset);
    }

    /** memmove(s, s + from, n): the n bytes at from move to the start of the buffer. */
    method MoveDown(from: nat, n: nat)
      requires from + n < buf.Length
      modifies buf
      ensures buf[..n] == old(buf[from..from + n]) && buf[n..] == old(buf[n..])
    {
      var i := 0;
      while i < n
        invariant i <= n
        invariant buf[..i] == old(buf[from..from + i])
        invariant buf[i..] == old(buf[i..])
      {
        buf[i] := buf[from + i];
        i := i + 1;
      }
    }

    /**
     * sdsrange: keeps the inclusive range [start, end] of the string,
     * negative indices counting from the end.
     */
    method Range(start: int, end: int)
      requires Valid()
      modifies this`len, buf
      ensures Valid() && Content() == Ranged(old(Content()), start, end)
    {
      var l := len;
      if l == 0 {
        return;
      }
      ghost var s := buf[..l];
      var st, newlen := SettleRange(l, start, end);
      assert Ranged(s, start, end) == if newlen == 0 then [] else s[st..st + newlen];
      if st != 0 && newlen != 0 {
        MoveDown(st, newlen);
      }
      assert buf[..newlen] == Ranged(s, start, end);
      buf[newlen] := '\0';
      len := newlen;
    }

    /** The index arithmetic of sdsrange. */
    static method SettleRange(l: nat, start: int, end: int) returns (st: int, newlen: nat)
      requires l > 0
      ensures (st, newlen) == RangeBounds(l, start, end)
    {
      st := start;
      var en := end;
      if st < 0 {
        st := l + st;
        if st < 0 {
          st := 0;
        }
      }
      if en < 0 {
        en := l + en;
        if en < 0 {
          en := 0;
        }
      }
      var n: int := if st > en then 0 else en - st + 1;
      if n != 0 {
        if st >= l {
          n := 0;
        } else if en >= l {
          en := l - 1;
          n := if st > en then 0 else en - st + 1;
        }
      } else {
        st := 0;
      }
      newlen := n;
    }

    /** sdsmapchars: each character equal to some from[i] becomes to[i], for the first such i; the length is kept. */
    method MapChars(from: seq<char>, to: seq<char>)
      requires Valid() && |from| == |to|
      modifies buf
      ensures Valid() && Content() == MapAll(old(Content()), from, to)
    {
      var j := 0;
      while j < len
        invariant j <= len && Valid()
        invariant forall k :: 0 <= k < j ==> buf[k] == MapChar(old(buf[k]), from, to)
        invariant forall k :: j <= k < buf.Length ==> buf[k] == old(buf[k])
      {
        var i := 0;
        while i < |from|
          invariant i <= |from| && forall k :: 0 <= k < i ==> from[k] != buf[j]
          invariant buf[j] == old(buf[j])
        {
          if buf[j] == from[i] {
            buf[j] := to[i];
            break;
          }
          i := i + 1;
        }
        assert buf[j] == MapChar(old(buf[j]), from, to) by {
          MapCharFirst(old(buf[j]), from, to, i);
        }
        j := j + 1;
      }
    }
  }

  /** strchr(cset, c) != NULL: c is in cset, or is the NUL that terminates cset. */
  predicate InCset(c: char, cset: seq<char>) { c == '\0' || c in cset }

  /** The index of the first character from i on that is not in cset (or |s|). */
  function LeadingIn(s: seq<char>, cset: seq<char>, i: nat): (j: nat)
    requires i <= |s|
    ensures i <= j <= |s| && (j < |s| ==> !InCset(s[j], cset))
    ensures forall k :: i <= k < j ==> InCset(s[k], cset)
    decreases |s| - i
  {
    if i == |s| || !InCset(s[i], cset) then i else LeadingIn(s, cset, i + 1)
  }

  /** The end of what remains after dropping the suffix of s[lo..hi] made of cset characters, keeping s[lo]. */
  function TrailingIn(s: seq<char>, cset: seq<char>, lo: nat, hi: nat): (e: nat)
    requires lo <= hi <= |s|
    ensures (lo < hi ==> lo < e) && e <= hi
    ensures forall k :: e <= k < hi ==> InCset(s[k], cset)
    ensures e > lo + 1 ==> !InCset(s[e - 1], cset)
    decreases hi
  {
    if hi <= lo + 1 || !InCset(s[hi - 1], cset) then hi else TrailingIn(s, cset, lo, hi - 1)
  }

  /** What sdstrim keeps of s. */
  function Trimmed(s: seq<char>, cset: seq<char>): seq<char>
  {
    var sp := LeadingIn(s, cset, 0);
    if sp == |s| then [] else s[sp..TrailingIn(s, cset, sp, |s|)]
  }

  /** The start and the length sdsrange settles on for a string of length l > 0. */
  function RangeBounds(l: nat, start: int, end: int): (r: (int, nat))
    requires l > 0
    ensures 0 <= r.0 && (r.1 == 0 || r.0 + r.1 <= l)
  {
    var st := if start < 0 then (if l + start < 0 then 0 else l + start) else start;
    var en := if end < 0 then (if l + end < 0 then 0 else l + end) else end;
    if st > en then (0, 0)
    else if st >= l then (st, 0)
    else if en >= l then (st, l - st)
    else (st, en - st + 1)
  }

  /** What sdsrange keeps of s. */
  function Ranged(s: seq<char>, start: int, end: int): seq<char>
  {
    if |s| == 0 then s else
      var (st, n) := RangeBounds(|s|, start, end);
      if n == 0 then [] else s[st..st + n]
  }

  /**
   * The range is inclusive at both ends; a negative index i stands for
   * |s| + i, floored at 0; an end past the string is clamped to its last
   * character; a range that starts after it ends, or at or past the end of
   * the string, is empty.
   */
  lemma RangeMeaning(s: seq<char>, start: int, end: int)
    ensures 0 <= start <= end < |s| ==> Ranged(s, start, end) == s[start..end + 1]
    ensures start < 0 ==> Ranged(s, start, end) == Ranged(s, if |s| + start < 0 then 0 else |s| + start, end)
    ensures end < 0 ==> Ranged(s, start, end) == Ranged(s, start, if |s| + end < 0 then 0 else |s| + end)
    ensures 0 <= start < |s| <= end ==> Ranged(s, start, end) == s[start..]
    ensures 0 <= end < start || |s| <= start ==> Ranged(s, start, end) == []
  {
  }

  /** The example of the sds.h documentation. */
  lemma RangeExample()
    ensures Ranged("Hello World", 1, -1) == "ello World"
  {
    RangeMeaning("Hello World", 1, -1);
    RangeMeaning("Hello World", 1, 10);
  }

  /** The character sdsmapchars puts for c: to[i] for the first i with from[i] == c, else c itself. */
  function MapChar(c: char, from: seq<char>, to: seq<char>): char
    requires |from| == |to|
  {
    if from == [] then c else if from[0] == c then to[0] else MapChar(c, from[1..], to[1..])
  }

  lemma {:induction false} MapCharFirst(c: char, from: seq<char>, to: seq<char>, i: nat)
    requires |from| == |to| && i <= |from|
    requires forall k :: 0 <= k < i ==> from[k] != c
    requires i < |from| ==> from[i] == c
    ensures MapChar(c, from, to) == if i < |from| then to[i] else c
  {
    if from != [] && i > 0 {
      MapCharFirst(c, from[1..], to[1..], i - 1);
    }
  }

  /** sdsmapchars applied to every character. */
  function MapAll(s: seq<char>, from: seq<char>, to: seq<char>): (r: seq<char>)
    requires |from| == |to|
    ensures |r| == |s| && forall k :: 0 <= k < |s| ==> r[k] == MapChar(s[k], from, to)
  {
    seq(|s|, k requires 0 <= k < |s| => MapChar(s[k], from, to))
  }

  /**
   * What sdstrim keeps is the slice between a prefix and a suffix made of
   * cset characters, and it neither starts nor ends with one.
   */
  lemma TrimMeaning(s: seq<char>, cset: seq<char>)
    ensures exists a: nat, b: nat :: (a <= b <= |s| && Trimmed(s, cset) == s[a..b] &&
      (forall k :: 0 <= k < a ==> InCset(s[k], cset)) &&
      (forall k :: b <= k < |s| ==> InCset(s[k], cset)) &&
      (a < b ==> !InCset(s[a], cset) && !InCset(s[b - 1], cset)))
  {
    var a := LeadingIn(s, cset, 0);
    var b := if a == |s| then a else TrailingIn(s, cset, a, |s|);
    assert Trimmed(s, cset) == s[a..b];
  }

  /** Lexicographic byte order, a proper prefix ordering first. */
  predicate Less(a: seq<char>, b: seq<char>)
  {
    if a == [] then b != [] else b != [] && (a[0] < b[0] || (a[0] == b[0] && Less(a[1..], b[1..])))
  }

  /** memcmp over the first n bytes, as a sign. */
  function MemCmp(a: seq<char>, b: seq<char>, n: nat): int
    requires n <= |a| && n <= |b|
  {
    if n == 0 then 0
    else if a[0] != b[0] then (if a[0] < b[0] then -1 else 1)
    else MemCmp(a[1..], b[1..], n - 1)
  }

  /** sdscmp, with the sign of memcmp's answer standing for that answer. */
  function Cmp(a: seq<char>, b: seq<char>): (r: int)
    ensures r == 0 <==> a == b
    ensures r < 0 <==> Less(a, b)
    ensures r > 0 <==> Less(b, a)
  {
    var minlen := if |a| < |b| then |a| else |b|;
    var c := MemCmp(a, b, minlen);
    CmpOrders(a, b, minlen);
    if c == 0 then (if |a| > |b| then 1 else if |a| < |b| then -1 else 0) else c
  }

  lemma {:induction false} CmpOrders(a: seq<char>, b: seq<char>, n: nat)
    requires n == (if |a| < |b| then |a| else |b|)
    ensures var c := MemCmp(a, b, n);
      var r := if c == 0 then (if |a| > |b| then 1 else if |a| < |b| then -1 else 0) else c;
      (r == 0 <==> a == b) && (r < 0 <==> Less(a, b)) && (r > 0 <==> Less(b, a))
  {
    if n > 0 && a[0] == b[0] {
      CmpOrders(a[1..], b[1..], n - 1);
      assert a == [a[0]] + a[1..] && b == [b[0]] + b[1..];
    }
  }

  /** sdscmp is antisymmetric. */
  lemma CmpAntisymmetric(a: seq<char>, b: seq<char>)
    ensures Cmp(a, b) < 0 <==> Cmp(b, a) > 0
    ensures Cmp(a, b) == 0 <==> Cmp(b, a) == 0
  {
  }

  /** The example of the sds.h documentation for sdsmapchars. */
  lemma MapExample()
    ensures MapAll("hello", "ho", "01") == "0ell1"
  {
    assert MapChar('h', "ho", "01") == '0';
    assert MapChar('e', "ho", "01") == 'e';
    assert MapChar('l', "ho", "01") == 'l';
    assert MapChar('o', "ho", "01") == '1';
  }

  /** The digit character of 0 <= d < 10. */
  function DigitChar(d: nat): char
    requires d < 10
  {
    ((d + '0' as int) as char)
  }

  /** The decimal form of v, most significant digit first, without leading zeros. */
  function Digits(v: nat): (r: seq<char>)
    ensures |r| >= 1 && (forall i :: 0 <= i < |r| ==> '0' <= r[i] <= '9')
    ensures |r| > 1 ==> r[0] != '0'
  {
    if v < 10 then [DigitChar(v)] else Digits(v / 10) + [DigitChar(v % 10)]
  }

  /** The digits in the order the do/while loop produces them: least significant first. */
  function RevDigits(v: nat): seq<char>
  {
    [DigitChar(v % 10)] + (if v < 10 then [] else RevDigits(v / 10))
  }

  function Reverse(xs: seq<char>): (r: seq<char>)
    ensures |r| == |xs|
    ensures forall i :: 0 <= i < |xs| ==> r[i] == xs[|xs| - 1 - i]
  {
    if xs == [] then [] else Reverse(xs[1..]) + [xs[0]]
  }

  /** The text sdsll2str writes: a '-' in front of the digits of a negative value. */
  function SignedDecimal(value: int): seq<char>
  {
    if value < 0 then "-" + Digits(-value) else Digits(value)
  }

  /** Reading the decimal digits back. */
  function ParseDigits(s: seq<char>): int
  {
    if s == [] then 0 else 10 * ParseDigits(s[..|s| - 1]) + (s[|s| - 1] as int - '0' as int)
  }

  /** Reading back a signed decimal, as strtoll would. */
  function ParseSigned(s: seq<char>): int
  {
    if s != [] && s[0] == '-' then -ParseDigits(s[1..]) else ParseDigits(s)
  }

  lemma {:induction false} DigitsReversed(v: nat)
    ensures Reverse(RevDigits(v)) == Digits(v)
  {
    if v >= 10 {
      DigitsReversed(v / 10);
      var xs := RevDigits(v);
      assert xs[1..] == RevDigits(v / 10);
    }
  }

  /** Parsing inverts printing. */
  lemma {:induction false} ParseDigitsInverts(v: nat)
    ensures ParseDigits(Digits(v)) == v
  {
    if v >= 10 {
      ParseDigitsInverts(v / 10);
      var d := Digits(v);
      assert d[..|d| - 1] == Digits(v / 10);
    }
  }

  lemma SignedRoundTrip(value: int)
    ensures ParseSigned(SignedDecimal(value)) == value
  {
    if value < 0 {
      ParseDigitsInverts(-value);
      assert SignedDecimal(value)[1..] == Digits(-value);
    } else {
      ParseDigitsInverts(value);
    }
  }

  /** A value below 10^k has at most k digits. */
  lemma {:induction false} DigitsLength(v: nat, k: nat, p: nat)
    requires p == Pow10(k) && v < p && k >= 1
    ensures |Digits(v)| <= k
  {
    if v >= 10 {
      DigitsLength(v / 10, k - 1, Pow10(k - 1));
    }
  }

  lemma Pow10Twenty()
    ensures Pow10(20) == 100_000_000_000_000_000_000
  {
      assert Pow10(1) == 10;
      assert Pow10(2) == 100;
      assert Pow10(3) == 1000;
      assert Pow10(4) == 10000;
      assert Pow10(5) == 100000;
      assert Pow10(6) == 1000000;
      assert Pow10(7) == 10000000;
      assert Pow10(8) == 100000000;
      assert Pow10(9) == 1000000000;
      assert Pow10(10) == 10000000000;
      assert Pow10(11) == 100000000000;
      assert Pow10(12) == 1000000000000;
      assert Pow10(13) == 10000000000000;
      assert Pow10(14) == 100000000000000;
      assert Pow10(15) == 1000000000000000;
      assert Pow10(16) == 10000000000000000;
      assert Pow10(17) == 100000000000000000;
      assert Pow10(18) == 1000000000000000000;
      assert Pow10(19) == 10000000000000000000;
      assert Pow10(20) == 100000000000000000000;
  }

  function Pow10(k: nat): (r: nat)
    ensures r >= 1
  {
    if k == 0 then 1 else 10 * Pow10(k - 1)
  }

  /**
   * The do/while loop of sdsll2str and sdsull2str: writes the digits of v
   * least significant first from position 0 and returns how many it wrote.
   */
  method WriteRevDigits(s: array<char>, v0: nat) returns (p: nat)
    requires |RevDigits(v0)| < s.Length
    modifies s
    ensures p == |RevDigits(v0)| && s[..p] == RevDigits(v0)
  {
    var v := v0;
    p := 0;
    while true
      invariant p < |RevDigits(v0)| && RevDigits(v0) == s[..p] + RevDigits(v)
      decreases v
    {
      var c := DigitChar(v % 10);
      DigitStep(RevDigits(v0), s[..p], v);
      PutChar(s, p, c);
      p := p + 1;
      if v < 10 {
        assert RevDigits(v0) == s[..p];
        return;
      }
      v := v / 10;
    }
  }

  lemma DigitStep(whole: seq<char>, pre: seq<char>, v: nat)
    requires whole == pre + RevDigits(v)
    ensures whole == (pre + [DigitChar(v % 10)]) + (if v < 10 then [] else RevDigits(v / 10))
  {
  }

  /** One store of the digit loop, seen as extending the written prefix. */
  method PutChar(s: array<char>, p: nat, c: char)
    requires p < s.Length
    modifies s
    ensures s[..p + 1] == old(s[..p]) + [c]
  {
    s[p] := c;
  }

  /** The decimal form of a 64-bit value has at most 20 digits, of a positive 63-bit one at most 19. */
  lemma RevDigitsLength(v: nat)
    requires v < 0x1_0000_0000_0000_0000
    ensures |RevDigits(v)| == |Digits(v)| <= 20
    ensures v < 0x8000_0000_0000_0000 ==> |Digits(v)| <= 19
  {
    DigitsReversed(v);
    Pow10Twenty();
    DigitsLength(v, 20, Pow10(20));
    if v < 0x8000_0000_0000_0000 {
      DigitsLength(v, 19, Pow10(19));
    }
  }

  /** The in-place reversal loop of sdsll2str: swaps s[i] and s[j] moving inwards. */
  method ReverseInPlace(s: array<char>, l: nat)
    requires l <= s.Length
    modifies s
    ensures s[..l] == Reverse(old(s[..l])) && s[l..] == old(s[l..])
  {
    if l == 0 { return; }
    var i, j := 0, l - 1;
    while i < j
      invariant 0 <= i && j == l - 1 - i && i <= l
      invariant forall k :: 0 <= k < i ==> s[k] == old(s[l - 1 - k]) && s[l - 1 - k] == old(s[k])
      invariant forall k :: i <= k <= j ==> s[k] == old(s[k])
      invariant s[l..] == old(s[l..])
    {
      s[i], s[j] := s[j], s[i];
      i, j := i + 1, j - 1;
    }
  }

  /**
   * sdsll2str: writes the decimal form of value followed by a NUL into s
   * and returns its length. The negation of LLONG_MIN would overflow, so
   * value must be above it.
   */
  method Ll2Str(s: array<char>, value: int) returns (l: nat)
    requires -0x8000_0000_0000_0000 < value < 0x8000_0000_0000_0000 && s.Length >= SDS_LLSTR_SIZE
    modifies s
    ensures l < s.Length && s[..l] == SignedDecimal(value) && s[l] == '\0'
  {
    var v: nat := if value < 0 then -value else value;
    RevDigitsLength(v);
    var p := WriteRevDigits(s, v);
    if value < 0 {
      s[p] := '-';
      p := p + 1;
    }
    l := p;
    s[p] := '\0';
    ghost var neg: seq<char> := if value < 0 then "-" else [];
    assert s[..l] == RevDigits(v) + neg;
    ReverseInPlace(s, l);
    assert s[l] == s[l..][0];
    SignedFromRev(v, value);
  }

  lemma SignedFromRev(v: nat, value: int)
    requires v == (if value < 0 then -value else value)
    ensures Reverse(RevDigits(v) + (if value < 0 then "-" else [])) == SignedDecimal(value)
  {
    DigitsReversed(v);
    ReverseConcat(RevDigits(v), if value < 0 then "-" else []);
  }

  /** sdsull2str: the same for an unsigned 64-bit value. */
  method Ull2Str(s: array<char>, v: nat) returns (l: nat)
    requires v < 0x1_0000_0000_0000_0000 && s.Length >= SDS_LLSTR_SIZE
    modifies s
    ensures l < s.Length && s[..l] == Digits(v) && s[l] == '\0'
  {
    RevDigitsLength(v);
    var p := WriteRevDigits(s, v);
    l := p;
    s[p] := '\0';
    ReverseInPlace(s, l);
    assert s[l] == s[l..][0];
    DigitsReversed(v);
  }

  lemma ReverseConcat(a: seq<char>, b: seq<char>)
    ensures Reverse(a + b) == Reverse(b) + Reverse(a)
  {
    var r := Reverse(a + b);
    assert r == Reverse(b) + Reverse(a) by {
      assert |r| == |Reverse(b) + Reverse(a)|;
      forall i | 0 <= i < |r| ensures r[i] == (Reverse(b) + Reverse(a))[i] {
        if i < |b| {
        } else {
        }
      }
    }
  }

  /** The tokens glued back together with sep between consecutive ones. */
  function Join(tokens: seq<seq<char>>, sep: seq<char>): seq<char>
  {
    if tokens == [] then []
    else if |tokens| == 1 then tokens[0]
    else tokens[0] + sep + Join(tokens[1..], sep)
  }

  /** sep occurs in x starting at k. */
  predicate SepAt(x: seq<char>, sep: seq<char>, k: nat)
  {
    k + |sep| <= |x| && x[k..k + |sep|] == sep
  }

  /** sep occurs somewhere inside t. */
  predicate ContainsSep(t: seq<char>, sep: seq<char>)
  {
    exists k: nat :: k < |t| && SepAt(t, sep, k)
  }

  /**
   * The scan of sdssplitlen from position j, the current token starting at
   * start: a separator found at j closes the token and the scan resumes
   * after it; once fewer than |sep| bytes remain, the rest is the last token.
   */
  function SplitFrom(x: seq<char>, sep: seq<char>, start: nat, j: nat): seq<seq<char>>
    requires |sep| >= 1 && start <= j <= |x|
    decreases |x| - j
  {
    if j + |sep| > |x| then [x[start..]]
    else if x[j..j + |sep|] == sep then [x[start..j]] + SplitFrom(x, sep, j + |sep|, j + |sep|)
    else SplitFrom(x, sep, start, j + 1)
  }

  /** What sdssplitlen returns for x, sep: no tokens at all for empty input. */
  function SplitAll(x: seq<char>, sep: seq<char>): seq<seq<char>>
    requires |sep| >= 1
  {
    if x == [] then [] else SplitFrom(x, sep, 0, 0)
  }

  /** Joining the tokens of a scan reproduces the scanned text. */
  lemma {:induction false} SplitFromJoins(x: seq<char>, sep: seq<char>, start: nat, j: nat)
    requires |sep| >= 1 && start <= j <= |x|
    ensures Join(SplitFrom(x, sep, start, j), sep) == x[start..]
    decreases |x| - j
  {
    if j + |sep| > |x| {
      assert SplitFrom(x, sep, start, j) == [x[start..]];
    } else if x[j..j + |sep|] == sep {
      SplitFromJoins(x, sep, j + |sep|, j + |sep|);
      var rest := SplitFrom(x, sep, j + |sep|, j + |sep|);
      assert |rest| >= 1 by { SplitFromNonEmpty(x, sep, j + |sep|, j + |sep|); }
      var tokens := [x[start..j]] + rest;
      assert SplitFrom(x, sep, start, j) == tokens;
      assert tokens[1..] == rest;
      assert Join(tokens, sep) == x[start..j] + sep + Join(rest, sep);
      assert x[start..] == x[start..j] + x[j..j + |sep|] + x[j + |sep|..];
    } else {
      SplitFromJoins(x, sep, start, j + 1);
      assert SplitFrom(x, sep, start, j) == SplitFrom(x, sep, start, j + 1);
    }
  }

  lemma {:induction false} SplitFromNonEmpty(x: seq<char>, sep: seq<char>, start: nat, j: nat)
    requires |sep| >= 1 && start <= j <= |x|
    ensures |SplitFrom(x, sep, start, j)| >= 1
    decreases |x| - j
  {
    if j + |sep| > |x| {
    } else if x[j..j + |sep|] == sep {
    } else {
      SplitFromNonEmpty(x, sep, start, j + 1);
    }
  }

  /** No token of a scan holds a separator: the scan checked every position. */
  lemma {:induction false} SplitFromNoSep(x: seq<char>, sep: seq<char>, start: nat, j: nat)
    requires |sep| >= 1 && start <= j <= |x|
    requires forall k :: start <= k < j ==> !SepAt(x, sep, k)
    ensures forall t :: t in SplitFrom(x, sep, start, j) ==> !ContainsSep(t, sep)
    decreases |x| - j
  {
    if j + |sep| > |x| {
      assert forall k :: j <= k < |x| ==> !SepAt(x, sep, k);
      NoSepInSlice(x, sep, start, |x|);
      assert x[start..|x|] == x[start..];
    } else if x[j..j + |sep|] == sep {
      NoSepInSlice(x, sep, start, j);
      SplitFromNoSep(x, sep, j + |sep|, j + |sep|);
    } else {
      SplitFromNoSep(x, sep, start, j + 1);
    }
  }

  lemma NoSepInSlice(x: seq<char>, sep: seq<char>, start: nat, e: nat)
    requires |sep| >= 1 && start <= e <= |x|
    requires forall k :: start <= k < |x| && k < e ==> !SepAt(x, sep, k)
    ensures !ContainsSep(x[start..e], sep)
  {
    var t := x[start..e];
    forall k: nat | k < |t| && SepAt(t, sep, k) ensures false {
      assert start + k + |sep| <= e;
      forall i | 0 <= i < |sep| ensures x[start + k + i] == sep[i] {
        assert t[k + i] == x[start + k + i];
        assert t[k..k + |sep|][i] == t[k + i];
      }
      assert x[start + k..start + k + |sep|] == sep;
      assert SepAt(x, sep, start + k);
    }
  }

  /** Tokens of sdssplitlen joined with sep give the input back, and none contains sep. */
  lemma SplitAllMeaning(x: seq<char>, sep: seq<char>)
    requires |sep| >= 1
    ensures Join(SplitAll(x, sep), sep) == x
    ensures forall t :: t in SplitAll(x, sep) ==> !ContainsSep(t, sep)
  {
    if x != [] {
      SplitFromJoins(x, sep, 0, 0);
      SplitFromNoSep(x, sep, 0, 0);
    }
  }

  /**
   * sdssplitlen: splits the first len bytes of s at every occurrence of sep;
   * None for an empty separator or a negative length. Each token is a new
   * string, modelled by its content.
   */
  method SplitLen(s: seq<char>, len: int, sep: seq<char>) returns (r: Option<seq<seq<char>>>)
    requires len <= |s|
    ensures |sep| < 1 || len < 0 <==> r.None?
    ensures r.Some? ==> r.value == SplitAll(s[..len], sep)
  {
    if |sep| < 1 || len < 0 {
      return None;
    }
    if len == 0 {
      return Some([]);
    }
    var x := s[..len];
    var tokens: seq<seq<char>> := [];
    var start: nat := 0;
    var j: nat := 0;
    while j < len - (|sep| - 1)
      invariant start <= j <= len
      invariant tokens + SplitFrom(x, sep, start, j) == SplitFrom(x, sep, 0, 0)
      decreases len - j
    {
      if (|sep| == 1 && x[j] == sep[0]) || x[j..j + |sep|] == sep {
        assert x[j..j + |sep|] == sep;
        tokens := tokens + [x[start..j]];
        start := j + |sep|;
        j := j + |sep|;
      } else {
        j := j + 1;
      }
    }
    tokens := tokens + [x[start..]];
    return Some(tokens);
  }

  /** sdsjoin: an empty string extended by each argument, with sep after all but the last. */
  method JoinArgs(argv: seq<seq<char>>, sep: seq<char>) returns (r: SdsString)
    ensures fresh(r) && r.Valid() && r.Content() == Join(argv, sep)
  {
    r := new SdsString.NewLen([]);
    var j := 0;
    while j < |argv|
      invariant j <= |argv| && r.Valid() && fresh(r) && fresh(r.buf)
      invariant r.Content() == Join(argv[..j], sep) + (if 0 < j < |argv| then sep else [])
      decreases |argv| - j
    {
      JoinStep(argv, sep, j);
      r.CatLen(argv[j]);
      if j != |argv| - 1 {
        r.CatLen(sep);
      }
      j := j + 1;
    }
    assert argv[..|argv|] == argv;
  }

  lemma JoinStep(argv: seq<seq<char>>, sep: seq<char>, j: nat)
    requires j < |argv|
    ensures Join(argv[..j + 1], sep) == Join(argv[..j], sep) + (if j > 0 then sep else []) + argv[j]
  {
    if j > 0 {
      JoinSnoc(argv[..j], argv[j], sep);
      assert argv[..j + 1] == argv[..j] + [argv[j]];
    } else {
      assert argv[..1] == [argv[0]];
    }
  }

  lemma {:induction false} JoinSnoc(ts: seq<seq<char>>, t: seq<char>, sep: seq<char>)
    requires ts != []
    ensures Join(ts + [t], sep) == Join(ts, sep) + sep + t
  {
    if |ts| == 1 {
      assert ts + [t] == [ts[0], t];
      assert [ts[0], t][1..] == [t];
    } else {
      JoinSnoc(ts[1..], t, sep);
      assert (ts + [t])[1..] == ts[1..] + [t];
    }
  }

  /** is_hex_digit */
  predicate IsHexDigit(c: char)
  {
    ('0' <= c <= '9') || ('a' <= c <= 'f') || ('A' <= c <= 'F')
  }

  /** hex_digit_to_int: the digit's value, and 0 for anything that is not a hex digit. */
  function HexDigitToInt(c: char): (v: nat)
    ensures v < 16
    ensures !IsHexDigit(c) ==> v == 0
    ensures '0' <= c <= '9' ==> v == c as int - '0' as int
    ensures 'a' <= c <= 'f' ==> v == c as int - 'a' as int + 10
    ensures 'A' <= c <= 'F' ==> v == c as int - 'A' as int + 10
  {
    match c
    case '0' => 0 case '1' => 1 case '2' => 2 case '3' => 3 case '4' => 4
    case '5' => 5 case '6' => 6 case '7' => 7 case '8' => 8 case '9' => 9
    case 'a' => 10 case 'A' => 10 case 'b' => 11 case 'B' => 11
    case 'c' => 12 case 'C' => 12 case 'd' => 13 case 'D' => 13
    case 'e' => 14 case 'E' => 14 case 'f' => 15 case 'F' => 15
    case _ => 0
  }

  /** The lower-case and upper-case hex digit of 0 <= v < 16. */
  function HexChar(v: nat, upper: bool): char
    requires v < 16
  {
    if v < 10 then (v + '0' as int) as char
    else if upper then (v - 10 + 'A' as int) as char
    else (v - 10 + 'a' as int) as char
  }

  /** hex_digit_to_int inverts writing a digit in either case. */
  lemma HexDigitRoundTrip(v: nat, upper: bool)
    requires v < 16
    ensures IsHexDigit(HexChar(v, upper)) && HexDigitToInt(HexChar(v, upper)) == v
  {
  }

  /** isspace in the C locale. */
  predicate IsSpace(c: char)
  {
    c == ' ' || c == '\t' || c == '\n' || c == '\U{0B}' || c == '\U{0C}' || c == '\r'
  }

  /** A C string: no NUL before its end. */
  predicate NoNul(line: seq<char>)
  {
    forall i :: 0 <= i < |line| ==> line[i] != '\0'
  }

  /** The byte at p of a NUL-terminated line. */
  function Ch(line: seq<char>, p: nat): char
  {
    if p < |line| then line[p] else '\0'
  }

  /** The blank-skipping loop of sdssplitargs. */
  function SkipBlanks(line: seq<char>, p: nat): (q: nat)
    requires p <= |line|
    ensures p <= q <= |line| && (q < |line| ==> !IsSpace(line[q]))
    ensures forall k :: p <= k < q ==> IsSpace(line[k])
    decreases |line| - p
  {
    if p < |line| && IsSpace(line[p]) then SkipBlanks(line, p + 1) else p
  }

  /** Whether the token scanner is inside double quotes, single quotes or neither. */
  datatype Quote = Plain | InDouble | InSingle

  /** The byte a backslash escape inside double quotes stands for. */
  function Unescape(c: char): char
  {
    match c
    case 'n' => '\n'
    case 'r' => '\r'
    case 't' => '\t'
    case 'b' => '\U{08}'
    case 'a' => '\U{07}'
    case _ => c
  }

  /** A closing quote must be followed by a blank or by the end of the line. */
  predicate CloseOk(line: seq<char>, p: nat)
  {
    Ch(line, p + 1) == '\0' || IsSpace(Ch(line, p + 1))
  }

  /**
   * The token loop of sdssplitargs from p, in quoting state q, with cur
   * already collected: the token and the position after it, or None for an
   * unterminated quote or a closing quote followed by something other than
   * a blank.
   */
  function Token(line: seq<char>, p: nat, q: Quote, cur: seq<char>): (r: Option<(seq<char>, nat)>)
    requires NoNul(line) && p <= |line|
    ensures r.Some? ==> p <= r.value.1 <= |line| && (p < |line| ==> p < r.value.1)
    decreases |line| - p
  {
    var c := Ch(line, p);
    var n := Ch(line, p + 1);
    match q
    case InDouble =>
      if c == '\\' && n == 'x' && IsHexDigit(Ch(line, p + 2)) && IsHexDigit(Ch(line, p + 3)) then
        var b := HexDigitToInt(Ch(line, p + 2)) * 16 + HexDigitToInt(Ch(line, p + 3));
        Token(line, p + 4, q, cur + [b as char])
      else if c == '\\' && n != '\0' then
        Token(line, p + 2, q, cur + [Unescape(n)])
      else if c == '"' then
        if CloseOk(line, p) then Some((cur, p + 1)) else None
      else if c == '\0' then None
      else Token(line, p + 1, q, cur + [c])
    case InSingle =>
      if c == '\\' && n == '\'' then
        Token(line, p + 2, q, cur + ['\''])
      else if c == '\'' then
        if CloseOk(line, p) then Some((cur, p + 1)) else None
      else if c == '\0' then None
      else Token(line, p + 1, q, cur + [c])
    case Plain =>
      if c == ' ' || c == '\n' || c == '\r' || c == '\t' then Some((cur, p + 1))
      else if c == '\0' then Some((cur, p))
      else if c == '"' then Token(line, p + 1, InDouble, cur)
      else if c == '\'' then Token(line, p + 1, InSingle, cur)
      else Token(line, p + 1, Plain, cur + [c])
  }

  /** The outer loop of sdssplitargs from p: the remaining arguments, or None on a quoting error. */
  function Args(line: seq<char>, p: nat): Option<seq<seq<char>>>
    requires NoNul(line) && p <= |line|
    decreases |line| - p
  {
    var q := SkipBlanks(line, p);
    if q == |line| then Some([])
    else
      match Token(line, q, Plain, [])
      case None => None
      case Some((t, p')) =>
        match Args(line, p')
        case None => None
        case Some(ts) => Some([t] + ts)
  }

  /** sdssplitargs: the arguments of line, an empty list for a blank line, None on a quoting error. */
  function SplitArgs(line: seq<char>): Option<seq<seq<char>>>
    requires NoNul(line)
  {
    Args(line, 0)
  }

  /** A byte that stands for itself outside quotes and ends no token. */
  predicate WordChar(c: char)
  {
    c != '\0' && !IsSpace(c) && c != '"' && c != '\''
  }

  predicate Word(w: seq<char>)
  {
    w != [] && forall i :: 0 <= i < |w| ==> WordChar(w[i])
  }

  /** A bare word followed by a blank or the end is one token. */
  lemma {:induction false} TokenWord(line: seq<char>, p: nat, cur: seq<char>, k: nat)
    requires NoNul(line) && p + k <= |line|
    requires forall i :: p <= i < p + k ==> WordChar(line[i])
    requires p + k == |line| || line[p + k] == ' '
    ensures Token(line, p, Plain, cur) == Some((cur + line[p..p + k], if p + k < |line| then p + k + 1 else p + k))
    decreases k
  {
    if k > 0 {
      TokenWord(line, p + 1, cur + [line[p]], k - 1);
      assert cur + [line[p]] + line[p + 1..p + k] == cur + line[p..p + k];
    } else {
      assert cur + line[p..p] == cur;
    }
  }

  /** Words joined by single spaces split back into the same words. */
  lemma {:induction false} ArgsWords(line: seq<char>, p: nat, ws: seq<seq<char>>)
    requires NoNul(line) && p <= |line| && line[p..] == Join(ws, " ")
    requires forall i :: 0 <= i < |ws| ==> Word(ws[i])
    ensures Args(line, p) == Some(ws)
    decreases |ws|
  {
    if ws == [] {
      assert SkipBlanks(line, p) == p;
    } else {
      var w := ws[0];
      var k := |w|;
      assert line[p..p + k] == w by {
        if |ws| > 1 { assert line[p..] == w + " " + Join(ws[1..], " "); }
      }
      assert SkipBlanks(line, p) == p by { assert !IsSpace(line[p]) by { assert line[p] == w[0]; } }
      assert p + k == |line| || line[p + k] == ' ' by {
        if |ws| > 1 { assert line[p..] == w + " " + Join(ws[1..], " "); assert line[p..][k] == ' '; }
      }
      TokenWord(line, p, [], k);
      assert [] + w == w;
      var p' := if p + k < |line| then p + k + 1 else p + k;
      assert line[p'..] == Join(ws[1..], " ") by {
        if |ws| > 1 {
          assert line[p..] == w + " " + Join(ws[1..], " ");
          assert line[p'..] == line[p..][k + 1..];
        }
      }
      ArgsWords(line, p', ws[1..]);
      assert [w] + ws[1..] == ws;
    }
  }

  lemma SplitArgsWords(ws: seq<seq<char>>)
    requires forall i :: 0 <= i < |ws| ==> Word(ws[i])
    ensures NoNul(Join(ws, " ")) && SplitArgs(Join(ws, " ")) == Some(ws)
  {
    JoinNoNul(ws);
    var line := Join(ws, " ");
    assert line[0..] == line;
    ArgsWords(line, 0, ws);
  }

  lemma {:induction false} JoinNoNul(ws: seq<seq<char>>)
    requires forall i :: 0 <= i < |ws| ==> Word(ws[i])
    ensures NoNul(Join(ws, " "))
  {
    if |ws| > 1 {
      JoinNoNul(ws[1..]);
      var j := Join(ws, " ");
      assert j == ws[0] + " " + Join(ws[1..], " ");
      forall i | 0 <= i < |j| ensures j[i] != '\0' {
        if i < |ws[0]| { assert j[i] == ws[0][i]; }
        else if i > |ws[0]| { assert j[i] == Join(ws[1..], " ")[i - |ws[0]| - 1]; }
      }
    } else if |ws| == 1 {
      assert Word(ws[0]);
    }
  }

  /** The two error inputs of the sds.h documentation: text after a closing quote, and unbalanced quotes. */
  lemma SplitArgsRejects()
    ensures SplitArgs("\"foo\"bar") == None
    ensures SplitArgs("\"foo'") == None
  {
    var l1 := "\"foo\"bar";
    assert Token(l1, 4, InDouble, "foo") == None;
    assert Token(l1, 0, Plain, []) == None;
    var l2 := "\"foo'";
    assert Token(l2, 5, InDouble, "foo'") == None;
    assert Token(l2, 0, Plain, []) == None;
  }

  /** The quoted argument of SplitArgsEscapes, scanned from its opening quote. */
  lemma QuotedToken(l3: seq<char>)
    requires l3 == "a \"b\\x41\\n\""
    ensures NoNul(l3) && Token(l3, 2, Plain, []) == Some(("bA\n", 11))
  {
    assert Token(l3, 10, InDouble, "bA\n") == Some(("bA\n", 11));
    assert "bA" + [Unescape('n')] == "bA\n";
    assert Token(l3, 8, InDouble, "bA") == Some(("bA\n", 11));
    assert HexDigitToInt('4') * 16 + HexDigitToInt('1') == 65 && (65 as char) == 'A';
    assert "b" + ['A'] == "bA";
    assert Token(l3, 4, InDouble, "b") == Some(("bA\n", 11));
    assert [] + ['b'] == "b";
    assert Token(l3, 3, InDouble, []) == Some(("bA\n", 11));
  }

  /** A bare word and a double-quoted argument with a hex escape and a newline escape. */
  lemma SplitArgsEscapes()
    ensures SplitArgs("a \"b\\x41\\n\"") == Some(["a", "bA\n"])
  {
    var l3 := "a \"b\\x41\\n\"";
    QuotedToken(l3);
    assert Token(l3, 1, Plain, "a") == Some(("a", 2));
    assert [] + ['a'] == "a";
    assert Token(l3, 0, Plain, []) == Some(("a", 2));
    assert SkipBlanks(l3, 2) == 2 && SkipBlanks(l3, 0) == 0;
    assert |l3| == 11 && Args(l3, 11) == Some([]);
    assert ["bA\n"] + [] == ["bA\n"];
    assert Args(l3, 2) == Some(["bA\n"]);
    assert ["a"] + ["bA\n"] == ["a", "bA\n"];
  }
}
