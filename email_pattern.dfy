/**
 * The two e-mail regular expressions the forms test against.
 *
 * Each is given twice.  A ghost predicate reads the pattern as a regular
 * expression: it asks whether the string (or, for the unanchored pattern,
 * some substring of it) splits into the runs the pattern names.  An
 * executable check scans the string instead.  A lemma shows the two agree in
 * both directions.
 */
module EmailPattern {
  import opened Wrappers
  import opened Strings

  /** A character that `[^\s@]` accepts. */
  predicate LocalChar(c: char) {
    !IsJsWhitespace(c) && c != '@'
  }

  predicate AllLocalChars(t: string) {
    forall k :: 0 <= k < |t| ==> LocalChar(t[k])
  }

  /**
   * `/^[^\s@]+@[^\s@]+\.[^\s@]+$/.test(s)`: the whole string is a non-empty
   * run of `[^\s@]`, an '@', another run, a '.', and a third run.
   */
  ghost predicate StrictMatch(s: string) {
    exists i, j :: StrictSplit(s, i, j)
  }

  /** The '@' is at `i` and the '.' at `j`, with the three runs around them. */
  ghost predicate StrictSplit(s: string, i: int, j: int) {
    && 0 < i && i + 1 < j && j + 1 < |s| && s[i] == '@' && s[j] == '.'
    && AllLocalChars(s[..i]) && AllLocalChars(s[i + 1..j]) && AllLocalChars(s[j + 1..])
  }

  /** The domain has a '.' that is neither its first nor its last character. */
  predicate HasInnerDot(d: string) {
    exists j :: 0 < j < |d| - 1 && d[j] == '.'
  }

  /**
   * The scan: no whitespace anywhere, exactly one '@', something before it,
   * and a domain after it with an inner '.'.
   */
  predicate StrictCheck(s: string) {
    match IndexOf(s, "@")
    case None => false
    case Some(i) => 0 < i && NoWhitespace(s) && !Contains(s[i + 1..], "@") && HasInnerDot(s[i + 1..])
  }

  lemma OccursAtChar(s: string, c: char, k: nat)
    requires k < |s|
    ensures OccursAt(s, [c], k) <==> s[k] == c
  {
    if s[k] == c {
      assert s[k..k + 1] == [c];
    }
  }

  /** A string without `c` has no occurrence of `[c]`. */
  lemma NoCharNotContains(s: string, c: char)
    requires forall k :: 0 <= k < |s| ==> s[k] != c
    ensures !Contains(s, [c])
  {
    forall i | 0 <= i <= |s| ensures !OccursAt(s, [c], i) {
      if i < |s| { OccursAtChar(s, c, i); }
    }
  }

  /** A string the anchored pattern matches, split at `i` and `j`, passes the scan. */
  lemma StrictMatchImpliesCheck(s: string, i: nat, j: nat)
    requires StrictSplit(s, i, j)
    ensures StrictCheck(s)
  {
    OccursAtChar(s, '@', i);
    var r := IndexOf(s, "@");
    assert r.Some? && r.value <= i;
    OccursAtChar(s, '@', r.value);
    forall k | 0 <= k < |s| ensures !IsJsWhitespace(s[k]) {
      if k < i { assert s[..i][k] == s[k]; }
      else if i < k < j { assert s[i + 1..j][k - i - 1] == s[k]; }
      else if j < k { assert s[j + 1..][k - j - 1] == s[k]; }
    }
    var d := s[i + 1..];
    forall k | 0 <= k < |d| ensures d[k] != '@' {
      if k < j - i - 1 { assert s[i + 1..j][k] == d[k]; }
      else if k > j - i - 1 { assert s[j + 1..][k - (j - i)] == d[k]; }
    }
    NoCharNotContains(d, '@');
    assert d[j - i - 1] == '.';
  }

  lemma StrictCheckImpliesMatch(s: string)
    requires StrictCheck(s)
    ensures StrictMatch(s)
  {
    var i := IndexOf(s, "@").value;
    var d := s[i + 1..];
    var jj :| 0 < jj < |d| - 1 && d[jj] == '.';
    var j := i + 1 + jj;
    OccursAtChar(s, '@', i);
    forall k | 0 <= k < i ensures s[k] != '@' {
      OccursAtChar(s, '@', k);
    }
    forall k | 0 <= k < |d| ensures d[k] != '@' {
      OccursAtChar(d, '@', k);
      assert OccursAt(d, "@", k) ==> Contains(d, "@");
    }
    assert AllLocalChars(s[..i]);
    forall k | i < k < |s| ensures LocalChar(s[k]) {
      assert s[k] == d[k - i - 1];
    }
    assert StrictSplit(s, i, j);
  }

  /** The scan accepts exactly the strings the anchored pattern matches. */
  lemma StrictCheckIsPattern(s: string)
    ensures StrictCheck(s) <==> StrictMatch(s)
  {
    if StrictMatch(s) {
      var i, j :| StrictSplit(s, i, j);
      StrictMatchImpliesCheck(s, i, j);
    }
    if StrictCheck(s) {
      StrictCheckImpliesMatch(s);
    }
  }

  /**
   * `/\S+@\S+\.\S+/.test(s)`: some substring of `s` is a non-empty run of
   * `\S`, an '@', another run, a '.', and a third run.  The '@' may repeat.
   */
  ghost predicate LooseMatch(s: string) {
    exists lo, i, j, hi :: LooseSplit(s, lo, i, j, hi)
  }

  /** `s[lo..hi]` is a match, with its '@' at `i` and its '.' at `j`. */
  ghost predicate LooseSplit(s: string, lo: int, i: int, j: int, hi: int) {
    && 0 <= lo < i && i + 1 < j && j + 1 < hi <= |s| && s[i] == '@' && s[j] == '.'
    && NoWhitespace(s[lo..i]) && NoWhitespace(s[i + 1..j]) && NoWhitespace(s[j + 1..hi])
  }

  /**
   * The scan: an '@' with a non-space before it, then a '.' at least two
   * places later with only non-spaces in between, then a non-space.
   */
  predicate LooseCheck(s: string) {
    exists i, j :: 0 <= i < |s| && 0 <= j < |s| && LooseCheckAt(s, i, j)
  }

  predicate LooseCheckAt(s: string, i: int, j: int) {
    && 1 <= i && i + 1 < j && j + 1 < |s| && s[i] == '@' && s[j] == '.'
    && !IsJsWhitespace(s[i - 1]) && !IsJsWhitespace(s[j + 1]) && NoWhitespace(s[i + 1..j])
  }

  /** The scan accepts exactly the strings the unanchored pattern matches. */
  lemma LooseCheckIsPattern(s: string)
    ensures LooseCheck(s) <==> LooseMatch(s)
  {
    if LooseMatch(s) {
      var lo, i, j, hi :| LooseSplit(s, lo, i, j, hi);
      assert s[lo..i][i - 1 - lo] == s[i - 1];
      assert s[j + 1..hi][0] == s[j + 1];
      assert LooseCheckAt(s, i, j);
    }
    if LooseCheck(s) {
      var i, j :| 0 <= i < |s| && 0 <= j < |s| && LooseCheckAt(s, i, j);
      assert s[i - 1..i] == [s[i - 1]];
      assert s[j + 1..j + 2] == [s[j + 1]];
      assert LooseSplit(s, i - 1, i, j, j + 2);
    }
  }

  /** Everything the anchored pattern accepts, the unanchored one accepts too. */
  lemma StrictImpliesLoose(s: string)
    requires StrictMatch(s)
    ensures LooseMatch(s)
  {
    var i, j :| StrictSplit(s, i, j);
    assert s[0..i] == s[..i] && s[j + 1..|s|] == s[j + 1..];
    assert LooseSplit(s, 0, i, j, |s|);
  }

  /**
   * The two patterns differ: whitespace around a valid address, or a second
   * '@', passes the unanchored pattern and fails the anchored one.
   */
  lemma PatternsDiffer()
    ensures LooseCheck(" a@b.c ") && !StrictCheck(" a@b.c ")
    ensures LooseCheck("a@b@c.d") && !StrictCheck("a@b@c.d")
  {
    var s := " a@b.c ";
    assert s[3..4] == ['b'];
    assert LooseCheckAt(s, 2, 4);
    assert !NoWhitespace(s) by { assert IsJsWhitespace(s[0]); }
    var t := "a@b@c.d";
    assert t[4..5] == ['c'];
    assert LooseCheckAt(t, 3, 5);
    OccursAtChar(t, '@', 1);
    OccursAtChar(t, '@', 0);
    assert IndexOf(t, "@") == Some(1);
    assert t[2..] == "b@c.d";
    OccursAtChar(t[2..], '@', 1);
    assert Contains(t[2..], "@");
  }
}
