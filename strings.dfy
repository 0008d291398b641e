/**
 * The handful of JavaScript string operations the application relies on,
 * written out with their ECMAScript meaning: decimal rendering of numbers in
 * template literals, `includes`, `startsWith`, `split`, `join`,
 * ASCII `toLowerCase`, and the `\s` character class.
 */
module Strings {
  import opened Wrappers

  // ---------------------------------------------------------------------------
  // Numbers in template literals: `${n}`
  // ---------------------------------------------------------------------------

  predicate IsDigit(c: char) {
    '0' <= c <= '9'
  }

  predicate AllDigits(s: string) {
    forall k :: 0 <= k < |s| ==> IsDigit(s[k])
  }

  function DigitChar(d: nat): (c: char)
    requires d < 10
    ensures IsDigit(c)
  {
    "0123456789"[d]
  }

  /** Decimal rendering of a non-negative integer, without leading zeros. */
  function NatToString(n: nat): (s: string)
    ensures 1 <= |s|
    ensures AllDigits(s)
    ensures n < 10 <==> |s| == 1
    decreases n
  {
    if n < 10 then [DigitChar(n)] else NatToString(n / 10) + [DigitChar(n % 10)]
  }

  /** Distinct numbers render to distinct strings. */
  lemma {:induction false} NatToStringInjective(a: nat, b: nat)
    requires NatToString(a) == NatToString(b)
    ensures a == b
    decreases a
  {
    if a >= 10 && b >= 10 {
      var sa, sb := NatToString(a), NatToString(b);
      assert sa[..|sa| - 1] == NatToString(a / 10);
      assert sb[..|sb| - 1] == NatToString(b / 10);
      NatToStringInjective(a / 10, b / 10);
      assert DigitChar(a % 10) == sa[|sa| - 1] == sb[|sb| - 1] == DigitChar(b % 10);
      assert "0123456789"[a % 10] == "0123456789"[b % 10];
    } else if a < 10 && b < 10 {
      assert "0123456789"[a] == NatToString(a)[0] == NatToString(b)[0] == "0123456789"[b];
    }
  }

  /** Decimal rendering of any integer, with a leading '-' for negatives. */
  function IntToString(i: int): (s: string)
    ensures 1 <= |s|
    ensures i >= 0 ==> s == NatToString(i)
    ensures i < 0 ==> s == "-" + NatToString(-i)
  {
    if i < 0 then "-" + NatToString(-i) else NatToString(i)
  }

  /**
   * A digit string followed by a separator that is not a digit can be taken
   * apart again: both the digits and the rest are determined.
   */
  lemma DigitPrefixUnique(a: string, b: string, sep: char, x: string, y: string)
    requires AllDigits(a) && AllDigits(b) && !IsDigit(sep)
    requires a + [sep] + x == b + [sep] + y
    ensures a == b && x == y
  {
    var c := a + [sep] + x;
    assert forall k :: 0 <= k < |a| ==> IsDigit(c[k]);
    assert forall k :: 0 <= k < |b| ==> IsDigit(c[k]);
    assert !IsDigit(c[|a|]) && !IsDigit(c[|b|]);
    assert |a| == |b|;
    assert a == (a + [sep] + x)[..|a|];
    assert b == (b + [sep] + y)[..|b|];
    assert x == (a + [sep] + x)[|a| + 1..];
    assert y == (b + [sep] + y)[|b| + 1..];
  }

  // ---------------------------------------------------------------------------
  // Searching: includes, startsWith, indexOf
  // ---------------------------------------------------------------------------

  /** `sub` occurs in `s` starting at index `i`. */
  predicate OccursAt(s: string, sub: string, i: nat) {
    i + |sub| <= |s| && s[i..i + |sub|] == sub
  }

  /** `s.includes(sub)` */
  predicate Contains(s: string, sub: string) {
    exists i :: 0 <= i <= |s| && OccursAt(s, sub, i)
  }

  /** `s.startsWith(prefix)` */
  predicate StartsWith(s: string, prefix: string) {
    |prefix| <= |s| && s[..|prefix|] == prefix
  }

  /** `s.indexOf(sub, from)`: the leftmost occurrence at or after `from`. */
  function IndexOfFrom(s: string, sub: string, from: nat): (r: Option<nat>)
    requires from <= |s|
    ensures r.Some? ==> from <= r.value && OccursAt(s, sub, r.value)
    ensures r.Some? ==> forall k :: from <= k < r.value ==> !OccursAt(s, sub, k)
    ensures r.None? ==> forall k :: from <= k <= |s| ==> !OccursAt(s, sub, k)
    decreases |s| - from
  {
    if OccursAt(s, sub, from) then Some(from)
    else if from == |s| then None
    else IndexOfFrom(s, sub, from + 1)
  }

  /** `s.indexOf(sub)` */
  function IndexOf(s: string, sub: string): (r: Option<nat>)
    ensures r.Some? ==> OccursAt(s, sub, r.value)
    ensures r.Some? ==> forall k :: 0 <= k < r.value ==> !OccursAt(s, sub, k)
    ensures r.None? <==> !Contains(s, sub)
  {
    IndexOfFrom(s, sub, 0)
  }

  // ---------------------------------------------------------------------------
  // split and join
  // ---------------------------------------------------------------------------

  /** `parts.join(sep)`; the join of no parts is the empty string. */
  function Join(parts: seq<string>, sep: string): string
  {
    if |parts| == 0 then ""
    else if |parts| == 1 then parts[0]
    else parts[0] + sep + Join(parts[1..], sep)
  }

  /**
   * `s.split(sep)` for a non-empty separator: cut at every occurrence,
   * scanning left to right without overlaps.  Joining the parts with the
   * same separator gives `s` back, and no part but the last contains it.
   */
  function Split(s: string, sep: string): (parts: seq<string>)
    requires |sep| > 0
    ensures 1 <= |parts|
    ensures Join(parts, sep) == s
    ensures !Contains(parts[0], sep) || |parts| == 1
    ensures |parts| == 1 <==> !Contains(s, sep)
    decreases |s|
  {
    match IndexOf(s, sep)
    case None => [s]
    case Some(i) =>
      var rest := Split(s[i + |sep|..], sep);
      SplitStep(s, sep, i, rest);
      [s[..i]] + rest
  }

  /** One cut of Split: the text before the first occurrence, then the parts of the rest. */
  lemma SplitStep(s: string, sep: string, i: nat, rest: seq<string>)
    requires |sep| > 0 && OccursAt(s, sep, i)
    requires forall k :: 0 <= k < i ==> !OccursAt(s, sep, k)
    requires |rest| >= 1 && Join(rest, sep) == s[i + |sep|..]
    ensures Join([s[..i]] + rest, sep) == s
    ensures !Contains(s[..i], sep)
    ensures Contains(s, sep)
  {
    assert s == s[..i] + sep + s[i + |sep|..] by {
      assert s[i..i + |sep|] == sep;
    }
    PrefixBeforeFirstLacks(s, sep, i);
    var parts := [s[..i]] + rest;
    assert parts[1..] == rest;
    assert Join(parts, sep) == s[..i] + sep + Join(rest, sep);
  }

  /** The text before the first occurrence of `sep` does not contain it. */
  lemma PrefixBeforeFirstLacks(s: string, sep: string, i: nat)
    requires |sep| > 0 && i <= |s|
    requires forall k :: 0 <= k < i ==> !OccursAt(s, sep, k)
    ensures !Contains(s[..i], sep)
  {
    forall k | 0 <= k <= i ensures !OccursAt(s[..i], sep, k) {
      if OccursAt(s[..i], sep, k) {
        assert s[..i][k..k + |sep|] == s[k..k + |sep|];
        assert OccursAt(s, sep, k);
      }
    }
  }

  /** No part of a split contains the separator. */
  lemma {:induction false} SplitPartsLackSeparator(s: string, sep: string)
    requires |sep| > 0
    ensures forall k :: 0 <= k < |Split(s, sep)| ==> !Contains(Split(s, sep)[k], sep)
    decreases |s|
  {
    match IndexOf(s, sep)
    case None =>
    case Some(i) =>
      var rest := s[i + |sep|..];
      SplitPartsLackSeparator(rest, sep);
      assert Split(s, sep)[1..] == Split(rest, sep);
  }

  /** A join of three parts, written out. */
  lemma JoinOfThree(parts: seq<string>, sep: string)
    requires |parts| == 3
    ensures Join(parts, sep) == parts[0] + sep + parts[1] + sep + parts[2]
  {
    assert parts[1..][1..] == [parts[2]];
    assert Join(parts[1..], sep) == parts[1] + sep + parts[2];
  }

  /** A join of several parts begins with the first part and the separator. */
  lemma JoinStartsWith(parts: seq<string>, sep: string)
    requires |parts| > 1
    ensures StartsWith(Join(parts, sep), parts[0] + sep)
  {
    assert Join(parts, sep) == (parts[0] + sep) + Join(parts[1..], sep);
  }

  /** A join of two or more parts ends with the separator and the last part. */
  lemma {:induction false} JoinLast(parts: seq<string>, sep: string)
    requires |parts| >= 2
    ensures Join(parts, sep) == Join(parts[..|parts| - 1], sep) + sep + parts[|parts| - 1]
    decreases |parts|
  {
    var n := |parts|;
    if n > 2 {
      JoinLast(parts[1..], sep);
      assert parts[1..][..n - 2] == parts[..n - 1][1..];
      assert parts[1..][n - 2] == parts[n - 1];
    } else {
      assert parts[..1] == [parts[0]];
    }
  }

  // ---------------------------------------------------------------------------
  // Characters: \s and ASCII toLowerCase
  // ---------------------------------------------------------------------------

  /** The characters matched by `\s` in an ECMAScript regular expression. */
  predicate IsJsWhitespace(c: char) {
    c == '\t' || c == '\n' || c == '\U{000B}' || c == '\U{000C}' || c == '\r' || c == ' '
    || c == '\U{00A0}' || c == '\U{1680}' || ('\U{2000}' <= c <= '\U{200A}')
    || c == '\U{2028}' || c == '\U{2029}' || c == '\U{202F}' || c == '\U{205F}'
    || c == '\U{3000}' || c == '\U{FEFF}'
  }

  predicate NoWhitespace(s: string) {
    forall k :: 0 <= k < |s| ==> !IsJsWhitespace(s[k])
  }

  function LowerChar(c: char): char {
    if 'A' <= c <= 'Z' then (c as int + 32) as char else c
  }

  /** `s.toLowerCase()`, restricted to the ASCII letters. */
  function ToLowerAscii(s: string): (r: string)
    ensures |r| == |s|
    ensures forall k :: 0 <= k < |s| ==> r[k] == LowerChar(s[k])
  {
    seq(|s|, k requires 0 <= k < |s| => LowerChar(s[k]))
  }

  /** Lower-casing works character by character, so it splits over concatenation. */
  lemma LowerOfConcat(x: string, y: string)
    ensures ToLowerAscii(x + y) == ToLowerAscii(x) + ToLowerAscii(y)
  {
    var l, r := ToLowerAscii(x + y), ToLowerAscii(x) + ToLowerAscii(y);
    assert forall k :: 0 <= k < |x| ==> l[k] == r[k];
    assert forall k :: |x| <= k < |l| ==> l[k] == LowerChar(y[k - |x|]) == r[k];
  }

  /** `s` with its leading `\s` characters removed. */
  function DropLeadingWhitespace(s: string): (r: string)
    ensures |r| <= |s|
    ensures r == s[|s| - |r|..]
    ensures r == [] || !IsJsWhitespace(r[0])
    ensures NoWhitespace(s) ==> r == s
    decreases |s|
  {
    if s != [] && IsJsWhitespace(s[0]) then DropLeadingWhitespace(s[1..]) else s
  }

  /**
   * `s.replace(/\s+/g, with)`: every maximal run of whitespace becomes one
   * `with`.  The result has no whitespace, is no longer than `s`, and is `s`
   * itself when `s` had no whitespace.
   */
  function ReplaceWhitespaceRuns(s: string, with: char): (r: string)
    requires !IsJsWhitespace(with)
    ensures NoWhitespace(r)
    ensures |r| <= |s|
    ensures NoWhitespace(s) ==> r == s
    decreases |s|
  {
    if s == [] then []
    else if IsJsWhitespace(s[0]) then [with] + ReplaceWhitespaceRuns(DropLeadingWhitespace(s[1..]), with)
    else [s[0]] + ReplaceWhitespaceRuns(s[1..], with)
  }

  predicate AllWhitespace(s: string) {
    forall k :: 0 <= k < |s| ==> IsJsWhitespace(s[k])
  }

  /** Dropping the leading whitespace of a run followed by a word leaves the word. */
  lemma {:induction false} DropRunBeforeWord(ws: string, b: string)
    requires AllWhitespace(ws)
    requires b == [] || !IsJsWhitespace(b[0])
    ensures DropLeadingWhitespace(ws + b) == b
    decreases |ws|
  {
    if ws != [] {
      assert (ws + b)[0] == ws[0];
      assert (ws + b)[1..] == ws[1..] + b;
      DropRunBeforeWord(ws[1..], b);
    } else {
      assert ws + b == b;
    }
  }

  /** A run at the front, then text not beginning with whitespace: one `with`, then the text replaced. */
  lemma RunAtFront(ws: string, b: string, with: char)
    requires !IsJsWhitespace(with)
    requires |ws| > 0 && AllWhitespace(ws)
    requires b == [] || !IsJsWhitespace(b[0])
    ensures ReplaceWhitespaceRuns(ws + b, with) == [with] + ReplaceWhitespaceRuns(b, with)
  {
    var s := ws + b;
    assert s[0] == ws[0] && IsJsWhitespace(s[0]);
    assert s[1..] == ws[1..] + b;
    DropRunBeforeWord(ws[1..], b);
  }

  /** A character other than whitespace at the front is kept as it is. */
  lemma KeptAtFront(c: char, t: string, with: char)
    requires !IsJsWhitespace(with) && !IsJsWhitespace(c)
    ensures ReplaceWhitespaceRuns([c] + t, with) == [c] + ReplaceWhitespaceRuns(t, with)
  {
    assert ([c] + t)[0] == c && ([c] + t)[1..] == t;
  }

  /** A word without whitespace in front of any text is copied unchanged. */
  lemma {:induction false} WordKept(a: string, x: string, with: char)
    requires !IsJsWhitespace(with) && NoWhitespace(a)
    ensures ReplaceWhitespaceRuns(a + x, with) == a + ReplaceWhitespaceRuns(x, with)
    decreases |a|
  {
    if a == [] {
      assert a + x == x;
    } else {
      var t := a[1..];
      assert NoWhitespace(t) by {
        forall k | 0 <= k < |t| ensures !IsJsWhitespace(t[k]) {
          assert t[k] == a[k + 1];
        }
      }
      var c := a[0];
      var rx := ReplaceWhitespaceRuns(x, with);
      calc {
        ReplaceWhitespaceRuns(a + x, with);
        { assert a + x == [c] + (t + x); }
        ReplaceWhitespaceRuns([c] + (t + x), with);
        { KeptAtFront(c, t + x, with); }
        [c] + ReplaceWhitespaceRuns(t + x, with);
        { WordKept(t, x, with); }
        [c] + (t + rx);
        { assert a == [c] + t; }
        a + rx;
      }
    }
  }

  /**
   * A word, a non-empty whitespace run, then text that does not begin with
   * whitespace: the word is kept, the whole run becomes one `with`, and the
   * rest is replaced on its own.  Every string is a word alone or takes
   * this form, so this and the no-whitespace case determine the result.
   */
  lemma RunBecomesOne(a: string, ws: string, b: string, with: char)
    requires !IsJsWhitespace(with)
    requires NoWhitespace(a) && |ws| > 0 && AllWhitespace(ws)
    requires b == [] || !IsJsWhitespace(b[0])
    ensures ReplaceWhitespaceRuns(a + ws + b, with) == a + [with] + ReplaceWhitespaceRuns(b, with)
  {
    assert a + ws + b == a + (ws + b);
    WordKept(a, ws + b, with);
    RunAtFront(ws, b, with);
  }


}
