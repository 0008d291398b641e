/**
 * The catalogue panel's logic (src/components/MovieCatalog.tsx): the search
 * test and filter over a list of films, and the duration label shown on each
 * card.  The filter applied to the catalogue constant is in MovieCatalogView.
 */
module MovieCatalog {
  import opened Strings
  import opened Movies

  // ---------------------------------------------------------------------------
  // formatDuration
  // ---------------------------------------------------------------------------

  /** The quotient `a / b` truncated toward zero, as JavaScript's `%` divides. */
  function TruncDiv(a: int, b: int): int
    requires b > 0
  {
    if a >= 0 then a / b else -((-a) / b)
  }

  /**
   * JavaScript's `%`: what is left of `a` after taking out the truncated
   * quotient's multiple of `b`, so it has the sign of the dividend.
   */
  function JsRem(a: int, b: int): (r: int)
    requires b > 0
    ensures a == TruncDiv(a, b) * b + r
    ensures a >= 0 ==> 0 <= r < b
    ensures a < 0 ==> -b < r <= 0
  {
    if a >= 0 then a % b
    else
      var n := -a;
      assert n == (n / b) * b + n % b;
      -(n % b)
  }

  /**
   * formatDuration(minutes): `Math.floor(minutes / 60)` hours, a space, and
   * `minutes % 60` minutes.  Dafny's `/` by a positive divisor is the floor.
   */
  function FormatDuration(minutes: int): string {
    IntToString(minutes / 60) + "h " + IntToString(JsRem(minutes, 60)) + "min"
  }

  /**
   * For a non-negative duration the label names whole hours and the
   * leftover minutes, with fewer than 60 minutes.
   */
  lemma FormatDurationSplits(minutes: int)
    requires minutes >= 0
    ensures exists h: nat, m: nat ::
      && FormatDuration(minutes) == NatToString(h) + "h " + NatToString(m) + "min"
      && h * 60 + m == minutes && m < 60
  {
    var h: nat, m: nat := minutes / 60, minutes % 60;
    assert FormatDuration(minutes) == NatToString(h) + "h " + NatToString(m) + "min";
  }

  /** The label of a non-negative duration, cut at its 'h'. */
  lemma LabelAtHours(minutes: int)
    requires minutes >= 0
    ensures FormatDuration(minutes) == NatToString(minutes / 60) + ['h'] + (" " + NatToString(minutes % 60) + "min")
  {
  }

  lemma MinutesTextUnique(x: string, y: string)
    requires " " + x + "min" == " " + y + "min"
    ensures x == y
  {
    assert x == (" " + x + "min")[1..|x| + 1];
    assert y == (" " + y + "min")[1..|y| + 1];
  }

  /** Different non-negative durations get different labels. */
  lemma FormatDurationInjective(a: int, b: int)
    requires a >= 0 && b >= 0
    requires FormatDuration(a) == FormatDuration(b)
    ensures a == b
  {
    LabelAtHours(a);
    LabelAtHours(b);
    DigitPrefixUnique(NatToString(a / 60), NatToString(b / 60), 'h',
                      " " + NatToString(a % 60) + "min", " " + NatToString(b % 60) + "min");
    MinutesTextUnique(NatToString(a % 60), NatToString(b % 60));
    NatToStringInjective(a / 60, b / 60);
    NatToStringInjective(a % 60, b % 60);
  }

  /**
   * A negative duration gets a negative hour count rounded down and a
   * negative remainder: -30 minutes reads as "-1h -30min".
   */
  lemma NegativeDurationLabel()
    ensures FormatDuration(-30) == "-1h -30min"
    ensures FormatDuration(138) == "2h 18min"
  {
    assert NatToString(30) == "30" by { assert NatToString(3) == "3"; }
    assert NatToString(18) == "18" by { assert NatToString(1) == "1"; }
    assert -30 / 60 == -1 && JsRem(-30, 60) == -30;
    assert IntToString(-1) == "-1" && IntToString(-30) == "-30";
    assert 138 / 60 == 2 && JsRem(138, 60) == 18;
    assert IntToString(2) == "2" && IntToString(18) == "18";
  }

  // ---------------------------------------------------------------------------
  // filteredMovies
  // ---------------------------------------------------------------------------

  /** The search test: the lower-cased term occurs in the lower-cased title, description or genre. */
  predicate MatchesSearch(m: Movie, term: string) {
    var t := ToLowerAscii(term);
    Contains(ToLowerAscii(m.title), t) || Contains(ToLowerAscii(m.description), t)
    || Contains(ToLowerAscii(m.genre), t)
  }

  /** `movies.filter(movie => MatchesSearch(movie, term))` */
  function FilterBySearch(ms: seq<Movie>, term: string): (r: seq<Movie>)
    ensures |r| <= |ms|
  {
    if |ms| == 0 then []
    else
      var rest := FilterBySearch(ms[1..], term);
      if MatchesSearch(ms[0], term) then [ms[0]] + rest else rest
  }

  /** The search keeps exactly the matching entries. */
  lemma {:induction false} FilterBySearchMembers(ms: seq<Movie>, term: string)
    ensures forall m :: m in FilterBySearch(ms, term) <==> m in ms && MatchesSearch(m, term)
    decreases |ms|
  {
    if |ms| > 0 {
      FilterBySearchMembers(ms[1..], term);
      assert ms == [ms[0]] + ms[1..];
    }
  }

  /** The search keeps catalogue order: it distributes over concatenation. */
  lemma {:induction false} FilterBySearchAppend(a: seq<Movie>, b: seq<Movie>, term: string)
    ensures FilterBySearch(a + b, term) == FilterBySearch(a, term) + FilterBySearch(b, term)
    decreases |a|
  {
    if |a| == 0 {
      assert a + b == b;
    } else {
      var ab := a + b;
      assert ab[0] == a[0];
      assert ab[1..] == a[1..] + b;
      FilterBySearchAppend(a[1..], b, term);
      var head := if MatchesSearch(a[0], term) then [a[0]] else [];
      assert FilterBySearch(ab, term) == head + FilterBySearch(a[1..] + b, term);
    }
  }

  /** The empty string occurs in every string, so an empty search keeps everything. */
  lemma {:induction false} EmptySearchKeepsAll(ms: seq<Movie>)
    ensures FilterBySearch(ms, "") == ms
    decreases |ms|
  {
    if |ms| > 0 {
      assert OccursAt(ToLowerAscii(ms[0].title), "", 0);
      EmptySearchKeepsAll(ms[1..]);
    }
  }

  /** The search ignores the case of ASCII letters in the term. */
  lemma SearchIgnoresTermCase(m: Movie, term: string)
    ensures MatchesSearch(m, term) <==> MatchesSearch(m, ToLowerAscii(term))
  {
    var t := ToLowerAscii(term);
    forall k | 0 <= k < |t| ensures LowerChar(t[k]) == t[k] {
    }
    assert ToLowerAscii(t) == t;
  }
}

/** The panel's list: the search filter applied to the catalogue constant. */
module MovieCatalogView {
  import opened Movies
  import opened Catalog
  import opened MovieCatalog

  /** filteredMovies: the catalogue entries the search term matches. */
  function FilteredMovies(searchTerm: string): (r: seq<Movie>)
    ensures forall m :: m in r <==> m in CatalogMovies && MatchesSearch(m, searchTerm)
  {
    FilterBySearchMembers(CatalogMovies, searchTerm);
    FilterBySearch(CatalogMovies, searchTerm)
  }

  /** With an empty search box the panel lists the whole catalogue, in order. */
  lemma EmptySearchShowsCatalog()
    ensures FilteredMovies("") == CatalogMovies
  {
    EmptySearchKeepsAll(CatalogMovies);
  }
}
