/** The .NET string operations the library relies on: String.Split with and
    without a count, Trim, decimal rendering of integers and parsing of
    hexadecimal and decimal digit strings. */
module Text {

  /** Index of the first occurrence of `c` in `s` (String.IndexOf). */
  function IndexOf(s: string, c: char): (i: nat)
    requires c in s
    ensures i < |s| && s[i] == c && c !in s[..i]
  {
    if s[0] == c then 0 else 1 + IndexOf(s[1..], c)
  }

  lemma IndexOfAfter(a: string, c: char, rest: string)
    requires c !in a
    ensures c in a + [c] + rest && IndexOf(a + [c] + rest, c) == |a|
  {
    var s := a + [c] + rest;
    assert s[|a|] == c;
  }

  /** The parts joined again with the separator (String.Join). */
  function Join(parts: seq<string>, sep: char): string
    requires |parts| >= 1
  {
    if |parts| == 1 then parts[0] else parts[0] + [sep] + Join(parts[1..], sep)
  }

  /** String.Split(sep, limit): at most `limit` parts, the last one holding
      the unsplit rest of the string. */
  function Split(s: string, sep: char, limit: nat): (parts: seq<string>)
    requires limit >= 1
    ensures 1 <= |parts| <= limit
    ensures forall k :: 0 <= k < |parts| - 1 ==> sep !in parts[k]
    ensures |parts| < limit ==> sep !in parts[|parts| - 1]
    decreases |s|
  {
    if limit == 1 || sep !in s then [s]
    else
      var i := IndexOf(s, sep);
      var rest := Split(s[i + 1..], sep, limit - 1);
      assert ([s[..i]] + rest)[1..] == rest;
      [s[..i]] + rest
  }

  /** Joining the parts of a split gives back the split text. */
  lemma {:induction false} SplitJoin(s: string, sep: char, limit: nat)
    requires limit >= 1
    ensures Join(Split(s, sep, limit), sep) == s
    decreases |s|
  {
    if limit > 1 && sep in s {
      var i := IndexOf(s, sep);
      var rest := Split(s[i + 1..], sep, limit - 1);
      SplitJoin(s[i + 1..], sep, limit - 1);
      assert Split(s, sep, limit) == [s[..i]] + rest;
      assert ([s[..i]] + rest)[1..] == rest;
      assert Join([s[..i]] + rest, sep) == s[..i] + [sep] + Join(rest, sep);
      assert s == s[..i] + [sep] + s[i + 1..];
    }
  }

  /** A split has one part more than the text has separators, but never
      more than `limit` parts. */
  lemma {:induction false} SplitLength(s: string, sep: char, limit: nat)
    requires limit >= 1
    ensures |Split(s, sep, limit)| == if multiset(s)[sep] + 1 < limit then multiset(s)[sep] + 1 else limit
    decreases |s|
  {
    if limit > 1 && sep in s {
      var i := IndexOf(s, sep);
      SplitLength(s[i + 1..], sep, limit - 1);
      assert Split(s, sep, limit) == [s[..i]] + Split(s[i + 1..], sep, limit - 1);
      assert s == s[..i] + [sep] + s[i + 1..];
      assert multiset(s) == multiset(s[..i]) + multiset{sep} + multiset(s[i + 1..]);
      assert multiset(s[..i])[sep] == 0;
    } else if sep !in s {
      assert multiset(s)[sep] == 0;
    }
  }

  /** A separator-free first piece is split off and the rest is split
      with one part fewer. */
  lemma SplitCons(s: string, sep: char, limit: nat, first: string, rest: string)
    requires limit >= 2 && sep !in first
    requires s == first + [sep] + rest
    ensures Split(s, sep, limit) == [first] + Split(rest, sep, limit - 1)
  {
    IndexOfAfter(first, sep, rest);
    assert s[..|first|] == first;
    assert s[|first| + 1..] == rest;
  }

  /** Two separator-free pieces and a tail split into exactly those three
      parts with a limit of three. */
  lemma SplitThree(s: string, a: string, b: string, tail: string, sep: char)
    requires sep !in a && sep !in b
    requires s == a + [sep] + (b + [sep] + tail)
    ensures Split(s, sep, 3) == [a, b, tail]
  {
    SplitCons(b + [sep] + tail, sep, 2, b, tail);
    SplitCons(s, sep, 3, a, b + [sep] + tail);
  }

  /** Three separator-free pieces and a tail split into exactly those four
      parts with a limit of four. */
  lemma SplitFour(s: string, a: string, b: string, c: string, tail: string, sep: char)
    requires sep !in a && sep !in b && sep !in c
    requires s == a + [sep] + (b + [sep] + (c + [sep] + tail))
    ensures Split(s, sep, 4) == [a, b, c, tail]
  {
    SplitCons(c + [sep] + tail, sep, 2, c, tail);
    SplitCons(b + [sep] + (c + [sep] + tail), sep, 3, b, c + [sep] + tail);
    SplitCons(s, sep, 4, a, b + [sep] + (c + [sep] + tail));
  }

  /** String.Split(sep) without a count: every separator splits. */
  function SplitAll(s: string, sep: char): (parts: seq<string>)
    ensures |parts| >= 1
    ensures forall k :: 0 <= k < |parts| ==> sep !in parts[k]
    decreases |s|
  {
    if sep !in s then [s]
    else
      var i := IndexOf(s, sep);
      var rest := SplitAll(s[i + 1..], sep);
      assert ([s[..i]] + rest)[1..] == rest;
      [s[..i]] + rest
  }

  /** Joining the parts of a full split gives back the split text. */
  lemma {:induction false} SplitAllJoin(s: string, sep: char)
    ensures Join(SplitAll(s, sep), sep) == s
    decreases |s|
  {
    if sep in s {
      var i := IndexOf(s, sep);
      var rest := SplitAll(s[i + 1..], sep);
      SplitAllJoin(s[i + 1..], sep);
      assert SplitAll(s, sep) == [s[..i]] + rest;
      assert ([s[..i]] + rest)[1..] == rest;
      assert Join([s[..i]] + rest, sep) == s[..i] + [sep] + Join(rest, sep);
      assert s == s[..i] + [sep] + s[i + 1..];
    }
  }

  /** A separator-free first piece is split off a full split. */
  lemma SplitAllCons(first: string, sep: char, rest: string)
    requires sep !in first
    ensures SplitAll(first + [sep] + rest, sep) == [first] + SplitAll(rest, sep)
  {
    var s := first + [sep] + rest;
    IndexOfAfter(first, sep, rest);
    assert s[..|first|] == first;
    assert s[|first| + 1..] == rest;
  }

  /** The full split is the only way to cut a text into separator-free
      parts. */
  lemma {:induction false} SplitAllUnique(s: string, sep: char, parts: seq<string>)
    requires |parts| >= 1
    requires forall k :: 0 <= k < |parts| ==> sep !in parts[k]
    requires Join(parts, sep) == s
    ensures SplitAll(s, sep) == parts
    decreases |parts|
  {
    if |parts| > 1 {
      var tail := parts[1..];
      var rest := Join(tail, sep);
      assert s == parts[0] + [sep] + rest;
      assert forall k :: 0 <= k < |tail| ==> tail[k] == parts[k + 1];
      SplitAllUnique(rest, sep, tail);
      assert sep !in parts[0];
      SplitAllCons(parts[0], sep, rest);
      assert parts == [parts[0]] + tail;
    } else {
      assert s == parts[0] && sep !in s;
    }
  }

  /** Char.IsWhiteSpace: the Unicode space separators, line and paragraph
      separators, and the control characters U+0009-U+000D and U+0085. */
  predicate IsWhiteSpace(c: char)
  {
    ('\U{9}' <= c <= '\U{D}') || c == ' ' || c == '\U{85}' || c == '\U{A0}'
    || c == '\U{1680}' || ('\U{2000}' <= c <= '\U{200A}') || c == '\U{2028}'
    || c == '\U{2029}' || c == '\U{202F}' || c == '\U{205F}' || c == '\U{3000}'
  }

  function TrimStart(s: string): (r: string)
    ensures |r| <= |s| && r == s[|s| - |r|..]
    ensures forall k :: 0 <= k < |s| - |r| ==> IsWhiteSpace(s[k])
    ensures r == [] || !IsWhiteSpace(r[0])
  {
    if s != [] && IsWhiteSpace(s[0]) then TrimStart(s[1..]) else s
  }

  function TrimEnd(s: string): (r: string)
    ensures |r| <= |s| && r == s[..|r|]
    ensures forall k :: |r| <= k < |s| ==> IsWhiteSpace(s[k])
    ensures r == [] || !IsWhiteSpace(r[|r| - 1])
  {
    if s != [] && IsWhiteSpace(s[|s| - 1]) then TrimEnd(s[..|s| - 1]) else s
  }

  /** String.Trim: leading and trailing white space removed. */
  function Trim(s: string): string
  {
    TrimEnd(TrimStart(s))
  }

  /** A string that neither starts nor ends with white space is its own Trim. */
  lemma TrimIdentity(s: string)
    requires s == [] || (!IsWhiteSpace(s[0]) && !IsWhiteSpace(s[|s| - 1]))
    ensures Trim(s) == s
  {
  }

  // ---------------------------------------------------------------- decimal

  predicate IsDigit(c: char)
  {
    '0' <= c <= '9'
  }

  predicate AllDigits(s: string)
  {
    forall k :: 0 <= k < |s| ==> IsDigit(s[k])
  }

  function DigitChar(d: nat): (c: char)
    requires d < 10
    ensures IsDigit(c) && c as int - '0' as int == d
  {
    ('0' as int + d) as char
  }

  /** The value of a string of decimal digits. */
  function DecimalValue(s: string): nat
    requires AllDigits(s)
  {
    if s == [] then 0 else DecimalValue(s[..|s| - 1]) * 10 + (s[|s| - 1] as int - '0' as int)
  }

  /** Int64.ToString() for a non-negative value, invariant culture: the
      shortest digit string of `n`. */
  function NatToString(n: nat): (s: string)
    ensures |s| >= 1 && AllDigits(s)
    ensures s[0] == '0' ==> n == 0 && s == "0"
  {
    if n < 10 then [DigitChar(n)] else NatToString(n / 10) + [DigitChar(n % 10)]
  }

  /** Rendering and parsing are inverse: the decimal text reads back as the
      number it was rendered from. */
  lemma {:induction false} DecimalRoundTrip(n: nat)
    ensures DecimalValue(NatToString(n)) == n
  {
    if n >= 10 {
      DecimalRoundTrip(n / 10);
      var s := NatToString(n);
      assert s[..|s| - 1] == NatToString(n / 10);
    }
  }

  /** Int64.ToString(): a leading minus sign for negative values. */
  function IntToString(i: int): (s: string)
    ensures |s| >= 1
    ensures (s[0] == '-') == (i < 0)
    ensures i < 0 ==> AllDigits(s[1..]) && DecimalValue(s[1..]) == -i
    ensures i >= 0 ==> AllDigits(s) && DecimalValue(s) == i
  {
    DecimalRoundTrip(if i < 0 then -i else i);
    if i < 0 then "-" + NatToString(-i) else NatToString(i)
  }

  /** Different integers render differently. */
  lemma IntToStringInjective(i: int, j: int)
    requires IntToString(i) == IntToString(j)
    ensures i == j
  {
    var s := IntToString(i);
    if i < 0 {
      assert s[1..] == IntToString(j)[1..];
    }
  }

  // ------------------------------------------------------------ hexadecimal

  function Pow(b: nat, e: nat): (p: nat)
    ensures b >= 1 ==> p >= 1
  {
    if e == 0 then 1 else b * Pow(b, e - 1)
  }

  predicate IsHexDigit(c: char)
  {
    '0' <= c <= '9' || 'a' <= c <= 'f' || 'A' <= c <= 'F'
  }

  predicate AllHexDigits(s: string)
  {
    forall k :: 0 <= k < |s| ==> IsHexDigit(s[k])
  }

  function HexDigitValue(c: char): (d: nat)
    requires IsHexDigit(c)
    ensures d < 16
  {
    if '0' <= c <= '9' then c as int - '0' as int
    else if 'a' <= c <= 'f' then c as int - 'a' as int + 10
    else c as int - 'A' as int + 10
  }

  /** The value of a string of hexadecimal digits, either case. */
  function HexValue(s: string): (v: nat)
    requires AllHexDigits(s)
    ensures v < Pow(16, |s|)
  {
    if s == [] then 0 else HexValue(s[..|s| - 1]) * 16 + HexDigitValue(s[|s| - 1])
  }

  /** Leading zeros do not change the value. */
  lemma {:induction false} HexLeadingZero(s: string)
    requires AllHexDigits(s)
    ensures AllHexDigits("0" + s) && HexValue("0" + s) == HexValue(s)
    decreases |s|
  {
    var t := "0" + s;
    if s != [] {
      assert t[..|t| - 1] == "0" + s[..|s| - 1];
      HexLeadingZero(s[..|s| - 1]);
    }
  }

  function HexDigitChar(d: nat): (c: char)
    requires d < 16
    ensures IsHexDigit(c) && HexDigitValue(c) == d
  {
    if d < 10 then ('0' as int + d) as char else ('a' as int + d - 10) as char
  }

  /** `n` written with exactly `width` lower-case hexadecimal digits. */
  function ToHex(n: nat, width: nat): (s: string)
    requires n < Pow(16, width)
    ensures |s| == width && AllHexDigits(s)
  {
    if width == 0 then [] else ToHex(n / 16, width - 1) + [HexDigitChar(n % 16)]
  }

  lemma {:induction false} HexRoundTrip(n: nat, width: nat)
    requires n < Pow(16, width)
    ensures HexValue(ToHex(n, width)) == n
  {
    if width > 0 {
      HexRoundTrip(n / 16, width - 1);
      var s := ToHex(n, width);
      assert s[..|s| - 1] == ToHex(n / 16, width - 1);
    }
  }
}
