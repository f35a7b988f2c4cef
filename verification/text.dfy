/** String helpers shared by the Python backend and the JavaScript client models.
    Strings are sequences of Unicode scalar values. */
module Text {
  import opened Outcome

  // ---------------------------------------------------------------------------
  // Whitespace and trimming
  // ---------------------------------------------------------------------------

  /** The characters for which Python's `str.isspace()` holds; `str.strip()`
      with no argument removes exactly these from both ends. */
  predicate IsPySpace(c: char) {
    var k := c as int;
    || k == 0x20 || 0x09 <= k <= 0x0D || 0x1C <= k <= 0x1F
    || k == 0x85 || k == 0xA0 || k == 0x1680 || 0x2000 <= k <= 0x200A
    || k == 0x2028 || k == 0x2029 || k == 0x202F || k == 0x205F || k == 0x3000
  }

  /** The WhiteSpace and LineTerminator characters that ECMAScript's
      `String.prototype.trim` removes from both ends. */
  predicate IsJsSpace(c: char) {
    var k := c as int;
    || k == 0x20 || 0x09 <= k <= 0x0D || k == 0xA0 || k == 0xFEFF
    || k == 0x1680 || 0x2000 <= k <= 0x200A || k == 0x2028 || k == 0x2029
    || k == 0x202F || k == 0x205F || k == 0x3000
  }

  predicate AllSatisfy(s: string, p: char -> bool) {
    forall i :: 0 <= i < |s| ==> p(s[i])
  }

  /** `s` with its leading `ws` characters removed. */
  function TrimStart(s: string, ws: char -> bool): (r: string)
    ensures |r| <= |s| && r == s[|s| - |r|..]
    ensures r == [] || !ws(r[0])
    ensures AllSatisfy(s[..|s| - |r|], ws)
    decreases |s|
  {
    if |s| > 0 && ws(s[0]) then TrimStart(s[1..], ws) else s
  }

  /** `s` with its trailing `ws` characters removed. */
  function TrimEnd(s: string, ws: char -> bool): (r: string)
    ensures |r| <= |s| && r == s[..|r|]
    ensures r == [] || !ws(r[|r| - 1])
    ensures AllSatisfy(s[|r|..], ws)
    decreases |s|
  {
    if |s| > 0 && ws(s[|s| - 1]) then TrimEnd(s[..|s| - 1], ws) else s
  }

  /** Both ends trimmed: the result is a slice of `s` that neither starts nor
      ends with a `ws` character, and it is empty exactly when `s` holds
      nothing but `ws` characters. */
  function Strip(s: string, ws: char -> bool): (r: string)
    ensures |r| <= |s|
    ensures r == [] || (!ws(r[0]) && !ws(r[|r| - 1]))
    ensures r == [] <==> AllSatisfy(s, ws)
    ensures IsSubstring(r, s)
  {
    StripFacts(s, ws);
    TrimEnd(TrimStart(s, ws), ws)
  }

  lemma AllSatisfyConcat(x: string, y: string, ws: char -> bool)
    requires AllSatisfy(x, ws) && AllSatisfy(y, ws)
    ensures AllSatisfy(x + y, ws)
  {
  }

  lemma StripFacts(s: string, ws: char -> bool)
    ensures var r := TrimEnd(TrimStart(s, ws), ws);
      && (r == [] <==> AllSatisfy(s, ws))
      && IsSubstring(r, s)
  {
    var a := TrimStart(s, ws);
    var r := TrimEnd(a, ws);
    TrimEndFacts(a, r, ws);
    StripInfix(s, a, r, ws);
    StripEmpty(s, a, r, ws);
  }

  lemma TrimEndFacts(a: string, r: string, ws: char -> bool)
    requires r == TrimEnd(a, ws)
    ensures |r| <= |a| && r == a[..|r|]
    ensures AllSatisfy(a[|r|..], ws)
  {
  }

  lemma StripInfix(s: string, a: string, r: string, ws: char -> bool)
    requires |a| <= |s| && a == s[|s| - |a|..]
    requires |r| <= |a| && r == a[..|r|]
    ensures IsSubstring(r, s)
  {
    var k := |s| - |a|;
    assert s[k..k + |r|] == r;
    assert MatchesAt(s, r, k);
  }

  lemma StripEmpty(s: string, a: string, r: string, ws: char -> bool)
    requires |a| <= |s| && a == s[|s| - |a|..]
    requires a == [] || !ws(a[0])
    requires AllSatisfy(s[..|s| - |a|], ws)
    requires |r| <= |a| && r == a[..|r|]
    requires AllSatisfy(a[|r|..], ws)
    ensures r == [] <==> AllSatisfy(s, ws)
  {
    var k := |s| - |a|;
    if r == [] {
      assert a[|r|..] == a;
      AllSatisfyConcat(s[..k], a, ws);
      assert s[..k] + a == s;
    }
    if a != [] {
      assert a[0] == s[k];
    }
  }

  /** Python `str.strip()`. */
  function PyStrip(s: string): string {
    Strip(s, IsPySpace)
  }

  /** JavaScript `String.prototype.trim()`. */
  function JsTrim(s: string): string {
    Strip(s, IsJsSpace)
  }

  lemma {:induction false} TrimStartOfClean(s: string, ws: char -> bool)
    requires s == [] || !ws(s[0])
    ensures TrimStart(s, ws) == s
  {
  }

  lemma {:induction false} TrimEndOfClean(s: string, ws: char -> bool)
    requires s == [] || !ws(s[|s| - 1])
    ensures TrimEnd(s, ws) == s
  {
  }

  /** A string that neither starts nor ends with `ws` is its own strip. */
  lemma StripOfClean(s: string, ws: char -> bool)
    requires s == [] || (!ws(s[0]) && !ws(s[|s| - 1]))
    ensures Strip(s, ws) == s
  {
    TrimStartOfClean(s, ws);
    TrimEndOfClean(s, ws);
  }

  /** A string that starts with `p`, whose first and last characters are
      not `ws`, still starts with `p` once stripped. */
  lemma StripKeepsPrefix(s: string, p: string, ws: char -> bool)
    requires 0 < |p| <= |s| && s[..|p|] == p
    requires !ws(p[0]) && !ws(p[|p| - 1])
    ensures |Strip(s, ws)| >= |p| && Strip(s, ws)[..|p|] == p
  {
    TrimStartOfClean(s, ws);
    var r := TrimEnd(s, ws);
    assert s[|p| - 1] == p[|p| - 1];
    assert forall j | |r| <= j < |s| :: s[|r|..][j - |r|] == s[j];
    assert |r| >= |p|;
    assert r[..|p|] == s[..|p|];
  }

  /** Stripping twice is stripping once. */
  lemma StripIdempotent(s: string, ws: char -> bool)
    ensures Strip(Strip(s, ws), ws) == Strip(s, ws)
  {
    var r := Strip(s, ws);
    assert r == [] || (!ws(r[0]) && !ws(r[|r| - 1]));
    StripOfClean(r, ws);
  }

  // ---------------------------------------------------------------------------
  // Case and containment
  // ---------------------------------------------------------------------------

  /** ASCII lower-casing of one character. */
  function LowerChar(c: char): char {
    if 'A' <= c <= 'Z' then (c as int + 32) as char else c
  }

  /** ASCII lower-casing (Python `str.lower`, JavaScript `toLowerCase`). */
  function Lower(s: string): string {
    seq(|s|, i requires 0 <= i < |s| => LowerChar(s[i]))
  }

  /** Lower-casing twice is lower-casing once. */
  lemma LowerIdempotent(s: string)
    ensures Lower(Lower(s)) == Lower(s)
  {
    forall i | 0 <= i < |s|
      ensures Lower(Lower(s))[i] == Lower(s)[i]
    {
      assert Lower(s)[i] == LowerChar(s[i]);
    }
  }

  /** Python `str.replace(a, b)` for single characters. */
  function ReplaceChar(s: string, a: char, b: char): (r: string)
    ensures |r| == |s|
    ensures a != b ==> a !in r
  {
    var r := seq(|s|, i requires 0 <= i < |s| => if s[i] == a then b else s[i]);
    assert forall i | 0 <= i < |r| :: r[i] != a || a == b;
    r
  }

  /** `needle` occurs somewhere in `hay` (Python `in`, JavaScript `includes`). */
  predicate IsSubstring(needle: string, hay: string) {
    exists i | 0 <= i <= |hay| - |needle| :: MatchesAt(hay, needle, i)
  }

  /** `needle` occurs in `hay` starting at index `i`. */
  predicate MatchesAt(hay: string, needle: string, i: int) {
    0 <= i && i + |needle| <= |hay| && hay[i..i + |needle|] == needle
  }

  lemma EmptyIsSubstring(hay: string)
    ensures IsSubstring("", hay)
  {
    assert MatchesAt(hay, "", 0);
  }

  predicate StartsWith(s: string, prefix: string) {
    |prefix| <= |s| && s[..|prefix|] == prefix
  }

  predicate EndsWith(s: string, suffix: string) {
    |suffix| <= |s| && s[|s| - |suffix|..] == suffix
  }

  lemma EndsWithConcat(p: string, q: string)
    ensures EndsWith(p + q, q)
  {
    assert (p + q)[|p|..] == q;
  }

  // ---------------------------------------------------------------------------
  // Split and join
  // ---------------------------------------------------------------------------

  /** Index of the first occurrence of `c` in `s`. */
  function IndexOf(s: string, c: char): (i: nat)
    requires c in s
    ensures i < |s| && s[i] == c && c !in s[..i]
  {
    if s[0] == c then 0
    else
      var j := IndexOf(s[1..], c);
      assert s[..j + 1] == [s[0]] + s[1..][..j];
      j + 1
  }

  /** Python `s.split(c)` for a one-character separator: the pieces between
      separators, never fewer than one. */
  function Split(s: string, c: char): (parts: seq<string>)
    ensures |parts| >= 1
    ensures forall k :: 0 <= k < |parts| ==> c !in parts[k]
    decreases |s|
  {
    if c in s then
      var i := IndexOf(s, c);
      [s[..i]] + Split(s[i + 1..], c)
    else
      [s]
  }

  /** Python `sep.join(parts)`. */
  function Join(parts: seq<string>, sep: string): string {
    if |parts| == 0 then ""
    else if |parts| == 1 then parts[0]
    else parts[0] + sep + Join(parts[1..], sep)
  }

  lemma SelfSubstring(x: string)
    ensures IsSubstring(x, x)
  {
    assert MatchesAt(x, x, 0);
  }

  /** An occurrence inside `s` is an occurrence inside `p + s + q`. */
  lemma SubstringWithin(x: string, s: string, p: string, q: string)
    requires IsSubstring(x, s)
    ensures IsSubstring(x, p + s + q)
  {
    var j :| 0 <= j <= |s| - |x| && MatchesAt(s, x, j);
    var t := p + s + q;
    assert t[|p| + j..|p| + j + |x|] == s[j..j + |x|];
    assert MatchesAt(t, x, |p| + j);
  }

  lemma SubstringTrans(a: string, b: string, c: string)
    requires IsSubstring(a, b) && IsSubstring(b, c)
    ensures IsSubstring(a, c)
  {
    var i :| 0 <= i <= |b| - |a| && MatchesAt(b, a, i);
    var j :| 0 <= j <= |c| - |b| && MatchesAt(c, b, j);
    assert forall k | 0 <= k < |b| :: c[j + k] == b[k] by {
      assert c[j..j + |b|] == b;
    }
    assert forall k | 0 <= k < |a| :: c[j + i + k] == b[i + k] == a[k];
    assert c[j + i..j + i + |a|] == a;
    assert MatchesAt(c, a, j + i);
  }

  /** Every part occurs in the joined string. */
  lemma {:induction false} JoinHasPart(parts: seq<string>, sep: string, i: nat)
    requires i < |parts|
    ensures IsSubstring(parts[i], Join(parts, sep))
  {
    SelfSubstring(parts[i]);
    if |parts| > 1 {
      var rest := Join(parts[1..], sep);
      if i == 0 {
        SubstringWithin(parts[0], parts[0], "", sep + rest);
        assert "" + parts[0] + (sep + rest) == Join(parts, sep);
      } else {
        JoinHasPart(parts[1..], sep, i - 1);
        assert parts[1..][i - 1] == parts[i];
        SubstringWithin(parts[i], rest, parts[0] + sep, "");
        assert parts[0] + sep + rest + "" == Join(parts, sep);
      }
    }
  }

  /** Joining the pieces of a split with the separator rebuilds the input. */
  lemma {:induction false} JoinSplit(s: string, c: char)
    ensures Join(Split(s, c), [c]) == s
    decreases |s|
  {
    if c in s {
      var i := IndexOf(s, c);
      var rest := s[i + 1..];
      JoinSplit(rest, c);
      assert Split(s, c) == [s[..i]] + Split(rest, c);
      assert s == s[..i] + [c] + rest;
    }
  }

  /** Splitting a join on a separator that no piece holds gives the pieces
      back. */
  lemma {:induction false} SplitJoin(parts: seq<string>, c: char)
    requires |parts| >= 1
    requires forall k | 0 <= k < |parts| :: c !in parts[k]
    ensures Split(Join(parts, [c]), c) == parts
  {
    if |parts| > 1 {
      var rest := Join(parts[1..], [c]);
      SplitJoin(parts[1..], c);
      var s := Join(parts, [c]);
      assert s == parts[0] + [c] + rest;
      var n := |parts[0]|;
      assert s[n] == c;
      var i := IndexOf(s, c);
      assert s[..n] == parts[0];
      assert i == n by {
        assert i <= n by {
          assert s[..i + 1][n] == c || i >= n;
        }
        assert i >= n by {
          assert s[..i] == parts[0][..i] || i > n;
        }
      }
      assert s[i + 1..] == rest;
    } else {
      assert Join(parts, [c]) == parts[0];
    }
  }

  /** Number of occurrences of `c` in `s`. */
  function Count(s: string, c: char): nat {
    if |s| == 0 then 0 else (if s[0] == c then 1 else 0) + Count(s[1..], c)
  }

  lemma {:induction false} CountConcat(a: string, b: string, c: char)
    ensures Count(a + b, c) == Count(a, c) + Count(b, c)
  {
    if |a| > 0 {
      assert (a + b)[1..] == a[1..] + b;
      CountConcat(a[1..], b, c);
    } else {
      assert a + b == b;
    }
  }

  /** A split yields exactly one more piece than there are separators. */
  lemma {:induction false} SplitCount(s: string, c: char)
    ensures |Split(s, c)| == Count(s, c) + 1
    decreases |s|
  {
    if c in s {
      var i := IndexOf(s, c);
      SplitCount(s[i + 1..], c);
      assert s == s[..i] + ([c] + s[i + 1..]);
      CountConcat(s[..i], [c] + s[i + 1..], c);
      CountConcat([c], s[i + 1..], c);
      CountAbsent(s[..i], c);
    } else {
      CountAbsent(s, c);
    }
  }

  lemma {:induction false} CountAbsent(s: string, c: char)
    requires c !in s
    ensures Count(s, c) == 0
  {
    if |s| > 0 {
      assert s == [s[0]] + s[1..];
      CountAbsent(s[1..], c);
    }
  }

  // ---------------------------------------------------------------------------
  // Decimal numerals
  // ---------------------------------------------------------------------------

  predicate IsDigit(c: char) {
    '0' <= c <= '9'
  }

  function DigitChar(d: nat): (c: char)
    requires d < 10
  {
    ('0' as int + d) as char
  }

  /** Value of a string of ASCII decimal digits. */
  function DigitsValue(s: string): nat
    requires AllSatisfy(s, IsDigit)
  {
    if |s| == 0 then 0
    else DigitsValue(s[..|s| - 1]) * 10 + (s[|s| - 1] as int - '0' as int)
  }

  /** Decimal rendering of a natural number (JavaScript template
      interpolation, Python `str`/f-string of an int): digits only, no
      leading zero. */
  function NatToString(n: nat): (r: string)
    ensures |r| >= 1 && AllSatisfy(r, IsDigit)
    ensures |r| > 1 ==> r[0] != '0'
  {
    if n < 10 then [DigitChar(n)]
    else NatToString(n / 10) + [DigitChar(n % 10)]
  }

  /** Rendering then reading back a number gives the number. */
  lemma {:induction false} NatToStringRoundTrip(n: nat)
    ensures DigitsValue(NatToString(n)) == n
  {
    if n >= 10 {
      var s := NatToString(n);
      NatToStringRoundTrip(n / 10);
      assert s[..|s| - 1] == NatToString(n / 10);
    }
  }

  /** Different numbers have different decimal renderings. */
  lemma NatToStringInjective(a: nat, b: nat)
    requires NatToString(a) == NatToString(b)
    ensures a == b
  {
    NatToStringRoundTrip(a);
    NatToStringRoundTrip(b);
  }

  /** The first occurrence of a separator splits a joined string: when `c`
      occurs in neither left part, the parts on both sides agree. */
  lemma SplitAtSeparator(a: string, b: string, a': string, b': string, c: char)
    requires c !in a && c !in a'
    requires a + [c] + b == a' + [c] + b'
    ensures a == a' && b == b'
  {
    var s := a + [c] + b;
    assert s[..|a|] == a && s[|a|] == c;
    assert (a' + [c] + b')[..|a'|] == a' && (a' + [c] + b')[|a'|] == c;
    assert |a| == |a'|;
    assert b == s[|a| + 1..];
  }

  /** Python `int(s)` on a string: surrounding whitespace, an optional sign
      and ASCII decimal digits; anything else raises (here `None`). */
  function ParsePyInt(s: string): (r: Option<int>)
    ensures r.Some? ==> PyStrip(s) != []
  {
    var t := PyStrip(s);
    if |t| > 0 && (t[0] == '-' || t[0] == '+') then
      var d := t[1..];
      if |d| > 0 && AllSatisfy(d, IsDigit) then
        var v: int := DigitsValue(d);
        Some(if t[0] == '-' then -v else v)
      else None
    else if |t| > 0 && AllSatisfy(t, IsDigit) then Some(DigitsValue(t))
    else None
  }

  /** What `int` accepts, stated on the stripped text: after an optional
      sign, a non-empty run of ASCII digits; the value is the digits' value,
      negated after `-`. */
  lemma ParsePyIntShape(s: string)
    ensures var t := PyStrip(s); var k := SignLen(t);
      ParsePyInt(s).Some? <==> k < |t| && AllSatisfy(t[k..], IsDigit)
    ensures var t := PyStrip(s); var k := SignLen(t);
      ParsePyInt(s).Some? ==>
        (k < |t| && AllSatisfy(t[k..], IsDigit)
         && ParsePyInt(s).value == (if k == 1 && t[0] == '-' then -(DigitsValue(t[k..]) as int) else DigitsValue(t[k..]) as int))
  {
    var t := PyStrip(s);
    if |t| > 0 && (t[0] == '-' || t[0] == '+') {
      assert SignLen(t) == 1;
    } else {
      assert SignLen(t) == 0 && t[0..] == t;
    }
  }

  /** Length of a leading sign: 1 when `t` starts with `-` or `+`. */
  function SignLen(t: string): (k: nat)
    ensures k <= |t|
  {
    if |t| > 0 && (t[0] == '-' || t[0] == '+') then 1 else 0
  }

  /** Decimal rendering of an integer, with `-` for a negative one. */
  function IntToString(n: int): string {
    if n < 0 then "-" + NatToString(-n) else NatToString(n)
  }

  /** Every rendering of an integer, and a `+`-signed rendering of a natural
      number, parses back to it. */
  lemma ParseIntToString(n: int)
    ensures ParsePyInt(IntToString(n)) == Some(n)
    ensures n >= 0 ==> ParsePyInt("+" + NatToString(n)) == Some(n)
  {
    if n < 0 {
      var m: nat := -n;
      var d := NatToString(m);
      assert IntToString(n) == ['-'] + d;
      ParseSigned('-', m);
      assert ParsePyInt(['-'] + d) == Some(-(m as int));
    } else {
      var d := NatToString(n);
      assert IntToString(n) == d;
      assert "+" + d == ['+'] + d;
      ParseNatToString(n);
      ParseSigned('+', n);
    }
  }

  lemma ParseSigned(sign: char, n: nat)
    requires sign == '-' || sign == '+'
    ensures ParsePyInt([sign] + NatToString(n)) == Some(if sign == '-' then -(n as int) else n as int)
  {
    var t := [sign] + NatToString(n);
    assert t[0] == sign && t[1..] == NatToString(n);
    NatToStringRoundTrip(n);
    ParseSignedDigits(t, n);
  }

  /** A sign followed by a non-empty run of digits of value `v` parses to
      `v`, negated after `-`. */
  lemma ParseSignedDigits(t: string, v: nat)
    requires |t| > 1 && (t[0] == '-' || t[0] == '+') && AllSatisfy(t[1..], IsDigit)
    requires DigitsValue(t[1..]) == v
    ensures ParsePyInt(t) == Some(if t[0] == '-' then -(v as int) else v as int)
  {
    assert t[1..][|t| - 2] == t[|t| - 1];
    DigitIsPlain(t[|t| - 1]);
    StripOfClean(t, IsPySpace);
  }

  /** Every decimal rendering of a natural number parses back to it. */
  lemma ParseNatToString(n: nat)
    ensures ParsePyInt(NatToString(n)) == Some(n)
  {
    ParseDigits(NatToString(n));
    NatToStringRoundTrip(n);
  }

  /** A non-empty run of digits parses to its value. */
  lemma ParseDigits(s: string)
    requires |s| > 0 && AllSatisfy(s, IsDigit)
    ensures ParsePyInt(s) == Some(DigitsValue(s))
  {
    DigitIsPlain(s[0]);
    DigitIsPlain(s[|s| - 1]);
    StripOfClean(s, IsPySpace);
  }

  /** A digit is neither whitespace nor a sign. */
  lemma DigitIsPlain(c: char)
    requires IsDigit(c)
    ensures !IsPySpace(c) && c != '-' && c != '+'
  {
  }

  // ---------------------------------------------------------------------------
  // UTF-16 length
  // ---------------------------------------------------------------------------

  /** JavaScript `length`: characters outside the Basic Multilingual Plane
      take two UTF-16 code units. */
  function Utf16Len(s: string): nat {
    if |s| == 0 then 0
    else (if s[0] as int > 0xFFFF then 2 else 1) + Utf16Len(s[1..])
  }

  lemma {:induction false} Utf16LenBounds(s: string)
    ensures |s| <= Utf16Len(s) <= 2 * |s|
  {
    if |s| > 0 {
      Utf16LenBounds(s[1..]);
    }
  }
}
