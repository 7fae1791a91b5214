/** String operations of JavaScript that the board relies on, over `string` (= seq<char>). */
module Text {

  /** `s.startsWith(prefix)` */
  predicate StartsWith(s: string, prefix: string) {
    |prefix| <= |s| && s[..|prefix|] == prefix
  }

  /** `s.substring(0, n)`: the first n characters, or all of s when it is shorter. */
  function Take(s: string, n: nat): (r: string)
    ensures |r| <= n && StartsWith(s, r)
    ensures |s| <= n ==> r == s
    ensures n <= |s| ==> |r| == n
  {
    if |s| <= n then s else s[..n]
  }

  /** `s.slice(-n)`: the last n characters, or all of s when it is shorter. */
  function TakeLast(s: string, n: nat): (r: string)
    ensures |r| <= n && |r| <= |s|
    ensures r == s[|s| - |r|..]
    ensures |s| <= n ==> r == s
  {
    if |s| <= n then s else s[|s| - n..]
  }

  /** `s.replace(pattern, replacement)` with a string pattern: only the first
      occurrence is replaced; with no occurrence, s is returned unchanged. */
  function ReplaceFirst(s: string, pattern: string, replacement: string): (r: string)
    decreases |s|
  {
    if StartsWith(s, pattern) then replacement + s[|pattern|..]
    else if s == [] then s
    else [s[0]] + ReplaceFirst(s[1..], pattern, replacement)
  }

  /** Removing a pattern that the string starts with drops exactly that prefix. */
  lemma ReplaceLeadingPattern(s: string, pattern: string)
    requires StartsWith(s, pattern)
    ensures ReplaceFirst(s, pattern, "") == s[|pattern|..]
  {
  }

  /** `s.split(sep)` for a one-character separator: the pieces between
      separators, left to right; always at least one piece ("" gives [""]). */
  function Split(s: string, sep: char): (parts: seq<string>)
    ensures |parts| >= 1
    ensures forall k :: 0 <= k < |parts| ==> sep !in parts[k]
    decreases |s|
  {
    if s == [] then [""]
    else
      var rest := Split(s[1..], sep);
      if s[0] == sep then [""] + rest
      else [[s[0]] + rest[0]] + rest[1..]
  }

  /** `parts.join(sep)`: the inverse of Split. */
  function Join(parts: seq<string>, sep: char): string
    requires |parts| >= 1
    decreases |parts|
  {
    if |parts| == 1 then parts[0] else parts[0] + [sep] + Join(parts[1..], sep)
  }

  /** Splitting loses nothing: joining the pieces gives back the string. */
  lemma {:induction false} JoinSplit(s: string, sep: char)
    ensures Join(Split(s, sep), sep) == s
  {
    if s != [] {
      var rest := Split(s[1..], sep);
      JoinSplit(s[1..], sep);
      if s[0] == sep {
        assert ([""] + rest)[1..] == rest;
      } else {
        var parts := [[s[0]] + rest[0]] + rest[1..];
        if |rest| > 1 {
          assert parts[1..] == rest[1..];
        }
      }
    }
  }

  /** A string without the separator is one piece. */
  lemma {:induction false} SplitWithoutSep(s: string, sep: char)
    requires sep !in s
    ensures Split(s, sep) == [s]
  {
    if s != [] {
      assert s[0] in s;
      SplitWithoutSep(s[1..], sep);
      assert [s[0]] + s[1..] == s;
    }
  }

  /** A separator after a separator-free head splits off exactly that head. */
  lemma {:induction false} SplitAfterHead(head: string, sep: char, tail: string)
    requires sep !in head
    ensures Split(head + [sep] + tail, sep) == [head] + Split(tail, sep)
  {
    var s := head + [sep] + tail;
    if head == [] {
      assert s[1..] == tail;
    } else {
      assert s[1..] == head[1..] + [sep] + tail;
      SplitAfterHead(head[1..], sep, tail);
      assert [head[0]] + head[1..] == head;
    }
  }

  /** Two separator-free strings joined by the separator split back into those two. */
  lemma SplitPair(a: string, sep: char, b: string)
    requires sep !in a && sep !in b
    ensures Split(a + [sep] + b, sep) == [a, b]
  {
    SplitAfterHead(a, sep, b);
    SplitWithoutSep(b, sep);
  }

  // Decimal rendering of integers, `String(n)` for an integral number.

  function DigitChar(d: nat): (c: char)
    requires d < 10
    ensures '0' <= c <= '9'
  {
    "0123456789"[d]
  }

  function DigitValue(c: char): nat
  {
    if '0' <= c <= '9' then (c as int - '0' as int) else 0
  }

  /** The decimal digits of n, most significant first, without leading zeros. */
  function NatString(n: nat): (s: string)
    ensures |s| >= 1
    ensures forall k :: 0 <= k < |s| ==> '0' <= s[k] <= '9'
    decreases n
  {
    if n < 10 then [DigitChar(n)] else NatString(n / 10) + [DigitChar(n % 10)]
  }

  /** `String(i)` for an integer i: a minus sign before the digits when negative. */
  function DecimalString(i: int): (s: string)
    ensures |s| >= 1
  {
    if i < 0 then "-" + NatString(-i) else NatString(i)
  }

  /** Reading digits back, most significant first (the inverse of NatString). */
  function ParseNat(s: string): nat
    decreases |s|
  {
    if s == [] then 0 else ParseNat(s[..|s| - 1]) * 10 + DigitValue(s[|s| - 1])
  }

  /** Reading a decimal integer back, as a store reads a textual id filter. */
  function ParseDecimal(s: string): int
  {
    if |s| > 0 && s[0] == '-' then 0 - ParseNat(s[1..]) else ParseNat(s)
  }

  lemma {:induction false} ParseNatString(n: nat)
    ensures ParseNat(NatString(n)) == n
  {
    var s := NatString(n);
    if n >= 10 {
      ParseNatString(n / 10);
      assert s[..|s| - 1] == NatString(n / 10);
    }
  }

  /** Decimal rendering round-trips. */
  lemma DecimalRoundTrip(i: int)
    ensures ParseDecimal(DecimalString(i)) == i
  {
    if i < 0 {
      var n: nat := -i;
      assert DecimalString(i) == "-" + NatString(n);
      ParseSigned(NatString(n));
      ParseNatString(n);
    } else {
      var n: nat := i;
      assert DecimalString(i) == NatString(n);
      ParseUnsigned(NatString(n));
      ParseNatString(n);
    }
  }

  /** A leading minus sign negates the digits after it. */
  lemma ParseSigned(digits: string)
    ensures ParseDecimal("-" + digits) == 0 - ParseNat(digits)
  {
    var s := "-" + digits;
    assert s[0] == '-' && s[1..] == digits;
  }

  /** Without a minus sign the whole string is digits. */
  lemma ParseUnsigned(s: string)
    requires |s| >= 1 && '0' <= s[0] <= '9'
    ensures ParseDecimal(s) == ParseNat(s)
  {
  }

  /** Distinct integers render as distinct strings. */
  lemma DecimalInjective(i: int, j: int)
    ensures DecimalString(i) == DecimalString(j) <==> i == j
  {
    if DecimalString(i) == DecimalString(j) {
      DecimalRoundTrip(i);
      DecimalRoundTrip(j);
    }
  }
}
