/**
 * String helpers that mirror the JavaScript built-ins the extension relies on:
 * `String.prototype.trim`, `toUpperCase` on one character, `split("\n")`,
 * `indexOf` of a substring, `startsWith`, and the line terminators that the
 * regular-expression `.` does not match.
 */
module Text {
  import opened Wrappers

  /** The characters removed by `String.prototype.trim` (WhiteSpace and LineTerminator of ECMAScript). */
  predicate IsWhitespace(c: char) {
    c == ' ' || c == '\t' || c == '\n' || c == '\r' || c == '\U{000B}' || c == '\U{000C}' ||
    c == '\U{00A0}' || c == '\U{1680}' || ('\U{2000}' <= c <= '\U{200A}') ||
    c == '\U{2028}' || c == '\U{2029}' || c == '\U{202F}' || c == '\U{205F}' ||
    c == '\U{3000}' || c == '\U{FEFF}'
  }

  /** The characters the regular-expression `.` refuses to match. */
  predicate IsLineTerminator(c: char) {
    c == '\n' || c == '\r' || c == '\U{2028}' || c == '\U{2029}'
  }

  /** The first index at or after `from` holding a line terminator, or `|s|`: where a greedy `.*` stops. */
  function LineEnd(s: string, from: nat): (e: nat)
    requires from <= |s|
    ensures from <= e <= |s|
    ensures forall k :: from <= k < e ==> !IsLineTerminator(s[k])
    ensures e < |s| ==> IsLineTerminator(s[e])
    decreases |s| - from
  {
    if from == |s| || IsLineTerminator(s[from]) then from else LineEnd(s, from + 1)
  }

  predicate IsDigit(c: char) {
    '0' <= c <= '9'
  }

  /** `Number(digits)` for a string of decimal digits. */
  function DecimalValue(digits: string): nat {
    if digits == [] then 0
    else
      var last := digits[|digits| - 1];
      DecimalValue(digits[..|digits| - 1]) * 10 + (if IsDigit(last) then last as int - '0' as int else 0)
  }

  /** `String(n)` for a natural number: its decimal digits without leading zeros. */
  function NatToString(n: nat): (s: string)
    ensures |s| >= 1
  {
    if n < 10 then [('0' as int + n) as char] else NatToString(n / 10) + [('0' as int + n % 10) as char]
  }

  /** A canonical decimal string: digits only, and no leading zero unless it is "0". */
  predicate IsCanonicalDecimal(s: string) {
    |s| >= 1 && (forall k :: 0 <= k < |s| ==> IsDigit(s[k])) && (s[0] == '0' ==> |s| == 1)
  }

  /** `NatToString` yields canonical decimals, and reading them back gives the number. */
  lemma {:induction false} NatToStringRoundTrip(n: nat)
    ensures IsCanonicalDecimal(NatToString(n))
    ensures DecimalValue(NatToString(n)) == n
    ensures n >= 1 ==> NatToString(n)[0] != '0'
  {
    var s := NatToString(n);
    if n >= 10 {
      NatToStringRoundTrip(n / 10);
      var t := NatToString(n / 10);
      assert s == t + [('0' as int + n % 10) as char];
      assert s[..|s| - 1] == t;
      assert s[0] == t[0];
    }
  }

  /** The converse: a canonical decimal string is `String` of the number it denotes. */
  lemma {:induction false} CanonicalDecimalRoundTrip(s: string)
    requires IsCanonicalDecimal(s)
    ensures NatToString(DecimalValue(s)) == s
    ensures s[0] != '0' ==> DecimalValue(s) >= 1
    decreases |s|
  {
    if |s| == 1 {
      assert s[..0] == [];
    } else {
      var t := s[..|s| - 1];
      assert t[0] == s[0];
      assert IsCanonicalDecimal(t) by {
        forall k | 0 <= k < |t| ensures IsDigit(t[k]) { assert t[k] == s[k]; }
      }
      CanonicalDecimalRoundTrip(t);
      var v, d := DecimalValue(t), s[|s| - 1] as int - '0' as int;
      assert DecimalValue(s) == v * 10 + d;
      assert (v * 10 + d) / 10 == v && (v * 10 + d) % 10 == d;
      assert s == t + [s[|s| - 1]];
    }
  }

  /** The regular-expression class `\w`. */
  predicate IsWordChar(c: char) {
    ('a' <= c <= 'z') || ('A' <= c <= 'Z') || IsDigit(c) || c == '_'
  }

  /** `toUpperCase` of one character, on the ASCII range. */
  function UpperChar(c: char): (u: char)
    ensures 'a' <= c <= 'z' ==> 'A' <= u <= 'Z' && u as int == c as int - 32
    ensures !('a' <= c <= 'z') ==> u == c
  {
    if 'a' <= c <= 'z' then (c as int - 32) as char else c
  }

  /** Number of whitespace characters at the front of `s`. */
  function LeadingWhitespace(s: string): (n: nat)
    ensures n <= |s|
    ensures forall k :: 0 <= k < n ==> IsWhitespace(s[k])
    ensures n < |s| ==> !IsWhitespace(s[n])
  {
    if s == [] || !IsWhitespace(s[0]) then 0 else 1 + LeadingWhitespace(s[1..])
  }

  /** Number of whitespace characters at the end of `s`. */
  function TrailingWhitespace(s: string): (n: nat)
    ensures n <= |s|
    ensures forall k :: |s| - n <= k < |s| ==> IsWhitespace(s[k])
    ensures n < |s| ==> !IsWhitespace(s[|s| - n - 1])
  {
    if s == [] || !IsWhitespace(s[|s| - 1]) then 0 else 1 + TrailingWhitespace(s[..|s| - 1])
  }

  /**
   * Where `trim` cuts `s`: `s[b.0..b.1]` is kept, everything outside it is
   * whitespace, and the kept part neither starts nor ends with whitespace.
   */
  function TrimBounds(s: string): (b: (nat, nat))
    ensures b.0 <= b.1 <= |s|
    ensures forall k :: 0 <= k < b.0 ==> IsWhitespace(s[k])
    ensures forall k :: b.1 <= k < |s| ==> IsWhitespace(s[k])
    ensures b.0 < b.1 ==> !IsWhitespace(s[b.0]) && !IsWhitespace(s[b.1 - 1])
    ensures b.0 == b.1 <==> forall k :: 0 <= k < |s| ==> IsWhitespace(s[k])
  {
    var i := LeadingWhitespace(s);
    if i == |s| then (i, i) else (i, |s| - TrailingWhitespace(s))
  }

  /** `String.prototype.trim`. */
  function Trim(s: string): string {
    s[TrimBounds(s).0..TrimBounds(s).1]
  }

  /** `trim` yields the empty string exactly when `s` is all whitespace. */
  lemma TrimEmpty(s: string)
    ensures Trim(s) == [] <==> forall k :: 0 <= k < |s| ==> IsWhitespace(s[k])
  {
  }

  /** `s.startsWith(p)`. */
  predicate StartsWith(s: string, p: string) {
    |p| <= |s| && s[..|p|] == p
  }

  /** `pat` occurs in `s` starting at index `i`. */
  predicate OccursAt(s: string, pat: string, i: nat) {
    i + |pat| <= |s| && s[i..i + |pat|] == pat
  }

  /** `s.indexOf(pat, from)`: the first index at or after `from` where `pat` occurs. */
  function IndexOfFrom(s: string, pat: string, from: nat): (r: Option<nat>)
    ensures r.Some? ==> from <= r.value && OccursAt(s, pat, r.value)
    ensures r.Some? ==> forall k :: from <= k < r.value ==> !OccursAt(s, pat, k)
    ensures r.None? ==> forall k :: from <= k ==> !OccursAt(s, pat, k)
    decreases |s| - from
  {
    if from + |pat| > |s| then None
    else if s[from..from + |pat|] == pat then Some(from)
    else IndexOfFrom(s, pat, from + 1)
  }

  /** `s.indexOf(pat)`. */
  function IndexOf(s: string, pat: string): Option<nat> {
    IndexOfFrom(s, pat, 0)
  }

  /** `s.lastIndexOf(c)` for one character: its last index, if any. */
  function LastIndexOf(s: string, c: char): (r: Option<nat>)
    ensures r.Some? ==> r.value < |s| && s[r.value] == c && forall k :: r.value < k < |s| ==> s[k] != c
    ensures r.None? ==> forall k :: 0 <= k < |s| ==> s[k] != c
  {
    if s == [] then None
    else if s[|s| - 1] == c then Some(|s| - 1)
    else LastIndexOf(s[..|s| - 1], c)
  }

  /** The last `c` of `a + [c] + b` is the joining one when `b` has none. */
  lemma {:induction false} LastIndexOfJoin(a: string, c: char, b: string)
    requires c !in b
    ensures LastIndexOf(a + [c] + b, c) == Some(|a|)
    decreases |b|
  {
    var s := a + [c] + b;
    if b != [] {
      assert b[|b| - 1] in b;
      assert s[..|s| - 1] == a + [c] + b[..|b| - 1];
      var init := b[..|b| - 1];
      assert c !in init by {
        forall k | 0 <= k < |init| ensures init[k] != c { assert init[k] == b[k] && b[k] in b; }
      }
      LastIndexOfJoin(a, c, init);
    }
  }

  /** How many times `c` occurs in `s`. */
  function Count(s: string, c: char): nat {
    if s == [] then 0 else (if s[0] == c then 1 else 0) + Count(s[1..], c)
  }

  /** `s.split("\n")`: the pieces between newlines, always at least one. */
  function SplitLines(s: string): (r: seq<string>)
    ensures |r| >= 1
  {
    if s == [] then [[]]
    else
      var tail := SplitLines(s[1..]);
      if s[0] == '\n' then [[]] + tail else [[s[0]] + tail[0]] + tail[1..]
  }

  /** The text after the last newline of `s` (all of `s` when it has none). */
  function AfterLastNewline(s: string): string {
    if s == [] then []
    else if s[|s| - 1] == '\n' then []
    else AfterLastNewline(s[..|s| - 1]) + [s[|s| - 1]]
  }

  /** Joining the pieces of `split("\n")` with newlines gives the string back. */
  function JoinLines(lines: seq<string>): string
    requires |lines| >= 1
  {
    if |lines| == 1 then lines[0] else lines[0] + "\n" + JoinLines(lines[1..])
  }

  /** `split("\n")` has one more piece than `s` has newlines, none of the pieces holds a newline, and joining them restores `s`. */
  lemma {:induction false} SplitLinesShape(s: string)
    ensures |SplitLines(s)| == Count(s, '\n') + 1
    ensures forall i :: 0 <= i < |SplitLines(s)| ==> '\n' !in SplitLines(s)[i]
    ensures JoinLines(SplitLines(s)) == s
  {
    if s != [] {
      SplitLinesShape(s[1..]);
      var tail := SplitLines(s[1..]);
      if s[0] == '\n' {
        assert SplitLines(s) == [[]] + tail;
        assert SplitLines(s)[1..] == tail;
      } else {
        var r := SplitLines(s);
        assert r == [[s[0]] + tail[0]] + tail[1..];
        assert '\n' !in r[0];
        if |tail| == 1 {
          assert JoinLines(r) == [s[0]] + tail[0];
        } else {
          assert r[1..] == tail[1..];
          assert JoinLines(r) == ([s[0]] + tail[0]) + "\n" + JoinLines(tail[1..]);
          assert JoinLines(tail) == tail[0] + "\n" + JoinLines(tail[1..]);
        }
      }
    }
  }

  /** The last piece of `split("\n")` is the text after the last newline. */
  lemma {:induction false} SplitLinesLast(s: string)
    ensures SplitLines(s)[|SplitLines(s)| - 1] == AfterLastNewline(s)
  {
    if s != [] {
      var t := s[1..];
      var tail := SplitLines(t);
      var r := SplitLines(s);
      SplitLinesLast(t);
      SplitLinesSingle(t);
      AfterLastNewlineCons(s);
      NoNewlineIdentity(t);
      if s[0] == '\n' {
        assert r == [[]] + tail;
        assert r[|r| - 1] == tail[|tail| - 1];
      } else if |tail| == 1 {
        assert r == [[s[0]] + tail[0]];
        assert [s[0]] + t == s;
      } else {
        assert r == [[s[0]] + tail[0]] + tail[1..];
        assert r[|r| - 1] == tail[|tail| - 1];
      }
    }
  }

  /** `split("\n")` gives a single piece exactly when there is no newline. */
  lemma {:induction false} SplitLinesSingle(s: string)
    ensures '\n' !in s <==> |SplitLines(s)| == 1
    ensures '\n' !in s ==> SplitLines(s) == [s]
  {
    if s != [] {
      SplitLinesSingle(s[1..]);
      assert s == [s[0]] + s[1..];
    }
  }

  /** How `AfterLastNewline` looks from the front of the string. */
  lemma {:induction false} AfterLastNewlineCons(s: string)
    requires s != []
    ensures AfterLastNewline(s) ==
      if '\n' in s[1..] then AfterLastNewline(s[1..])
      else if s[0] == '\n' then s[1..] else s
    decreases |s|
  {
    if |s| == 1 {
      assert s[1..] == [];
    } else {
      var init := s[..|s| - 1];
      AfterLastNewlineCons(init);
      assert init[1..] == s[1..][..|s[1..]| - 1];
      assert s[1..] == init[1..] + [s[|s| - 1]];
      NoNewlineIdentity(s[1..]);
      NoNewlineIdentity(s);
    }
  }

  /** A string without newlines is its own last line. */
  lemma {:induction false} NoNewlineIdentity(s: string)
    ensures '\n' !in s ==> AfterLastNewline(s) == s
  {
    if s != [] && '\n' !in s {
      NoNewlineIdentity(s[..|s| - 1]);
      assert s == s[..|s| - 1] + [s[|s| - 1]];
    }
  }
}
