/**
 * The browser-side Supabase client (src/utils/supabase/client.ts).  It
 * has two parts.  A module-level cache makes `createClient` build the
 * client only once.  The cookie adapter reads `document.cookie` and
 * renders the strings assigned to it.
 */
module SupabaseClient {
  import opened Wrappers
  import opened Strings

  // ---------------------------------------------------------------------------
  // The singleton
  // ---------------------------------------------------------------------------

  /** What `createBrowserClient` is built from. */
  datatype BrowserClient = BrowserClient(supabaseUrl: string, anonKey: string)

  /** The module-level `client` variable and the environment it reads. */
  class ClientCache {
    var client: Option<BrowserClient>
    ghost var builds: nat
    const supabaseUrl: string
    const anonKey: string

    ghost predicate Valid()
      reads this
    {
      && builds <= 1
      && (client.None? <==> builds == 0)
      && (client.Some? ==> client.value == BrowserClient(supabaseUrl, anonKey))
    }

    constructor (supabaseUrl: string, anonKey: string)
      ensures Valid() && client.None? && builds == 0
      ensures this.supabaseUrl == supabaseUrl && this.anonKey == anonKey
    {
      this.supabaseUrl := supabaseUrl;
      this.anonKey := anonKey;
      client := None;
      builds := 0;
    }

    /**
     * createClient: the cached client when there is one.  Otherwise build
     * it, cache it, and return it.  However often it is called, at most one
     * client is ever built, and every call returns that one.
     */
    method CreateClient() returns (c: BrowserClient)
      requires Valid()
      modifies this
      ensures Valid()
      ensures client == Some(c) && builds == 1
      ensures old(client).Some? ==> c == old(client).value && builds == old(builds)
      ensures c == BrowserClient(supabaseUrl, anonKey)
    {
      if client.Some? {
        return client.value;
      }
      c := BrowserClient(supabaseUrl, anonKey);
      client := Some(c);
      builds := builds + 1;
    }
  }

  // ---------------------------------------------------------------------------
  // get
  // ---------------------------------------------------------------------------

  /** `rows.find(row => row.startsWith(prefix))`, as an index. */
  function FindRow(rows: seq<string>, prefix: string): (r: Option<nat>)
    ensures r.Some? ==> r.value < |rows| && StartsWith(rows[r.value], prefix)
    ensures r.Some? ==> forall k :: 0 <= k < r.value ==> !StartsWith(rows[k], prefix)
    ensures r.None? ==> forall k :: 0 <= k < |rows| ==> !StartsWith(rows[k], prefix)
  {
    if |rows| == 0 then None
    else if StartsWith(rows[0], prefix) then Some(0)
    else match FindRow(rows[1..], prefix)
      case None => None
      case Some(k) => Some(k + 1)
  }

  /**
   * get(name): the first `; `-separated row that starts with `name=`, cut
   * at '=' and take the second piece (undefined when no row matches).
   */
  function CookieGet(cookie: string, name: string): (r: Option<string>)
    ensures r.Some? ==> !Contains(r.value, "=")
    ensures r.None? <==> forall k :: 0 <= k < |Split(cookie, "; ")| ==> !StartsWith(Split(cookie, "; ")[k], name + "=")
  {
    var rows := Split(cookie, "; ");
    match FindRow(rows, name + "=")
    case None => None
    case Some(k) =>
      var pieces := Split(rows[k], "=");
      assert Contains(rows[k], "=") by {
        assert rows[k][|name|..|name| + 1] == (name + "=")[|name|..];
        assert OccursAt(rows[k], "=", |name|);
      }
      assert !Contains(pieces[1], "=") by {
        SplitSecondHasNoSeparator(rows[k], "=");
      }
      assert rows == Split(cookie, "; ");
      assert StartsWith(Split(cookie, "; ")[k], name + "=");
      Some(pieces[1])
  }

  /** The second part of a split with at least two parts does not contain the separator. */
  lemma SplitSecondHasNoSeparator(s: string, sep: string)
    requires |sep| > 0 && Contains(s, sep)
    ensures |Split(s, sep)| >= 2 && !Contains(Split(s, sep)[1], sep)
  {
    var i := IndexOf(s, sep).value;
    var rest := s[i + |sep|..];
    assert Split(s, sep)[1] == Split(rest, sep)[0];
  }

  /** In a row that starts with `name=`, for a name without '=', the first '=' is the one after the name. */
  lemma FirstEqualsAfterName(row: string, name: string)
    requires StartsWith(row, name + "=") && !Contains(name, "=")
    ensures IndexOf(row, "=") == Some(|name|)
    ensures Split(row, "=") == [name] + Split(row[|name| + 1..], "=")
  {
    assert row[|name|..|name| + 1] == (name + "=")[|name|..];
    assert OccursAt(row, "=", |name|);
    var i := IndexOf(row, "=").value;
    if i < |name| {
      assert row[..|name|] == name;
      assert name[i..i + 1] == row[i..i + 1];
      assert OccursAt(name, "=", i);
      assert false;
    }
    assert row[..|name|] == name;
  }

  /**
   * For a name without '=', the value read is the text of the matched row
   * between `name=` and the next '=': a value that itself holds '=' comes
   * back cut short.
   */
  lemma GetStopsAtNextEquals(cookie: string, name: string, k: nat)
    requires !Contains(name, "=")
    requires FindRow(Split(cookie, "; "), name + "=") == Some(k)
    ensures var row := Split(cookie, "; ")[k];
      CookieGet(cookie, name) == Some(Split(row[|name| + 1..], "=")[0])
  {
    FirstEqualsAfterName(Split(cookie, "; ")[k], name);
  }

  /**
   * Round trip: a cookie jar holding just the pair `set` writes first reads
   * back the value, as long as neither name nor value holds '=' and the
   * pair holds no "; ".
   */
  lemma SetThenGet(name: string, value: string, o: CookieOptions, production: bool)
    requires !Contains(name, "=") && !Contains(value, "=")
    requires !Contains(name + "=" + value, "; ")
    ensures CookieGet(SetParts(name, value, o, production)[0], name) == Some(value)
  {
    SetLayout(name, value, o, production);
    var pair := name + "=" + value;
    var rows := Split(pair, "; ");
    assert rows == [pair] by {
      assert |rows| == 1;
      assert Join(rows, "; ") == rows[0];
    }
    assert pair[..|name| + 1] == name + "=";
    FirstEqualsAfterName(pair, name);
    assert pair[|name| + 1..] == value;
    var tail := Split(value, "=");
    assert tail == [value] by {
      assert |tail| == 1;
      assert Join(tail, "=") == tail[0];
    }
  }

  /** A jar holding one pair, for a name without '=': the read stops at the value's first '='. */
  lemma GetOfSinglePair(name: string, value: string)
    requires !Contains(name, "=")
    requires !Contains(name + "=" + value, "; ")
    ensures CookieGet(name + "=" + value, name) == Some(Split(value, "=")[0])
  {
    var pair := name + "=" + value;
    var rows := Split(pair, "; ");
    assert rows == [pair] by {
      assert |rows| == 1;
      assert Join(rows, "; ") == rows[0];
    }
    assert pair[..|name| + 1] == name + "=";
    assert FindRow(rows, name + "=") == Some(0);
    GetStopsAtNextEquals(pair, name, 0);
    assert pair[|name| + 1..] == value;
  }

  /**
   * The cut, for every value that holds an '=': a jar holding the pair
   * `name=stem=tail` reads back `stem` alone, never the value that was set.
   */
  lemma GetTruncatesValueWithEquals(name: string, stem: string, tail: string)
    requires !Contains(name, "=") && !Contains(stem, "=")
    requires !Contains(name + "=" + stem + "=" + tail, "; ")
    ensures CookieGet(name + "=" + (stem + "=" + tail), name) == Some(stem)
    ensures CookieGet(name + "=" + (stem + "=" + tail), name) != Some(stem + "=" + tail)
  {
    var value := stem + "=" + tail;
    assert name + "=" + value == name + "=" + stem + "=" + tail;
    GetOfSinglePair(name, value);
    FirstEqualsAfterStem(stem, tail);
    SplitHead(value, "=", |stem|);
    assert value[..|stem|] == stem;
  }

  /** The first '=' of `stem=tail`, for a stem without one, is right after the stem. */
  lemma FirstEqualsAfterStem(stem: string, tail: string)
    requires !Contains(stem, "=")
    ensures IndexOf(stem + "=" + tail, "=") == Some(|stem|)
  {
    var value := stem + "=" + tail;
    assert value[|stem|..|stem| + 1] == "=";
    assert OccursAt(value, "=", |stem|);
    forall k | 0 <= k < |stem| ensures !OccursAt(value, "=", k) {
      assert value[k..k + 1] == stem[k..k + 1];
      assert !OccursAt(stem, "=", k);
    }
  }

  /** The first part of a split ends at the first occurrence of the separator. */
  lemma SplitHead(s: string, sep: string, i: nat)
    requires |sep| > 0 && IndexOf(s, sep) == Some(i)
    ensures Split(s, sep)[0] == s[..i]
  {
  }

  /**
   * get as evidently intended: everything after `name=` in the first
   * matching row, '=' characters included.
   */
  function CookieGetWhole(cookie: string, name: string): (r: Option<string>)
    ensures r.None? <==> CookieGet(cookie, name).None?
    ensures r.Some? ==>
      exists k :: 0 <= k < |Split(cookie, "; ")| && Split(cookie, "; ")[k] == name + "=" + r.value
  {
    var rows := Split(cookie, "; ");
    match FindRow(rows, name + "=")
    case None => None
    case Some(k) =>
      var v := rows[k][|name| + 1..];
      assert rows[k] == rows[k][..|name| + 1] + v;
      assert rows == Split(cookie, "; ");
      Some(v)
  }

  /**
   * The corrected get completes the round trip for every value, '='
   * included, as long as the pair holds no "; ".
   */
  lemma SetThenGetWhole(name: string, value: string, o: CookieOptions, production: bool)
    requires !Contains(name + "=" + value, "; ")
    ensures CookieGetWhole(SetParts(name, value, o, production)[0], name) == Some(value)
  {
    var pair := name + "=" + value;
    var rows := Split(pair, "; ");
    assert rows == [pair] by {
      assert |rows| == 1;
      assert Join(rows, "; ") == rows[0];
    }
    assert pair[..|name| + 1] == name + "=";
    assert pair[|name| + 1..] == value;
    SetLayout(name, value, o, production);
  }

  // ---------------------------------------------------------------------------
  // set and remove
  // ---------------------------------------------------------------------------

  /**
   * The `CookieOptions` fields the adapter reads.  A missing option is None
   * or false.  `sameSite` holds the option's rendered text.
   */
  datatype CookieOptions = CookieOptions(path: Option<string>, maxAge: Option<int>, domain: Option<string>,
                                         sameSite: Option<string>, secure: bool, httpOnly: bool)

  /** A string option used in a template, where '' is falsy. */
  predicate Truthy(o: Option<string>) {
    o.Some? && o.value != ""
  }

  /** A numeric option used as a condition, where 0 is falsy. */
  predicate MaxAgeGiven(o: CookieOptions) {
    o.maxAge.Some? && o.maxAge.value != 0
  }

  /** `.filter(Boolean)` on a list of strings: drop the empty ones. */
  function NonEmpty(xs: seq<string>): (r: seq<string>)
    ensures forall k :: 0 <= k < |r| ==> r[k] != ""
    ensures |r| <= |xs|
  {
    if |xs| == 0 then [] else if xs[0] == "" then NonEmpty(xs[1..]) else [xs[0]] + NonEmpty(xs[1..])
  }

  lemma {:induction false} NonEmptyAppend(a: seq<string>, b: seq<string>)
    ensures NonEmpty(a + b) == NonEmpty(a) + NonEmpty(b)
    decreases |a|
  {
    if |a| > 0 {
      assert (a + b)[1..] == a[1..] + b;
      NonEmptyAppend(a[1..], b);
    } else {
      assert a + b == b;
    }
  }

  /** One attribute, present only when its condition holds. */
  function Present(cond: bool, attr: string): seq<string> {
    if cond then [attr] else []
  }

  function PathAttribute(o: CookieOptions): string {
    "path=" + (if Truthy(o.path) then o.path.value else "/")
  }

  function SameSiteAttribute(o: CookieOptions): string {
    if Truthy(o.sameSite) then "SameSite=" + o.sameSite.value else "SameSite=Lax"
  }

  /** The four conditional entries both builders end with, before filtering. */
  function TrailingEntries(o: CookieOptions, production: bool): seq<string> {
    [ if Truthy(o.domain) then "domain=" + o.domain.value else "",
      SameSiteAttribute(o),
      if o.secure || production then "Secure" else "",
      if o.httpOnly then "HttpOnly" else "" ]
  }

  /**
   * The attributes both builders end with, as a reference list: the domain
   * when given, the SameSite attribute (Lax by default), Secure when asked
   * for or in production, and HttpOnly when asked for.
   */
  function TrailingAttributes(o: CookieOptions, production: bool): seq<string> {
    Present(Truthy(o.domain), "domain=" + o.domain.GetOr(""))
    + [SameSiteAttribute(o)]
    + Present(o.secure || production, "Secure")
    + Present(o.httpOnly, "HttpOnly")
  }

  lemma NonEmptyEntry(x: string)
    ensures NonEmpty([x]) == if x == "" then [] else [x]
  {
    assert [x][1..] == [];
  }

  /** Filtering the trailing entries leaves exactly the trailing attributes. */
  lemma TrailingEntriesFiltered(o: CookieOptions, production: bool)
    ensures NonEmpty(TrailingEntries(o, production)) == TrailingAttributes(o, production)
  {
    var e := TrailingEntries(o, production);
    assert e == [e[0]] + [e[1]] + [e[2]] + [e[3]];
    NonEmptyAppend([e[0]] + [e[1]] + [e[2]], [e[3]]);
    NonEmptyAppend([e[0]] + [e[1]], [e[2]]);
    NonEmptyAppend([e[0]], [e[1]]);
    NonEmptyEntry(e[0]);
    NonEmptyEntry(e[1]);
    NonEmptyEntry(e[2]);
    NonEmptyEntry(e[3]);
  }

  /** The entries `set` lists, filtered as the source does. */
  function SetParts(name: string, value: string, o: CookieOptions, production: bool): (parts: seq<string>)
    ensures forall k :: 0 <= k < |parts| ==> parts[k] != ""
  {
    NonEmpty([name + "=" + value, PathAttribute(o),
              if MaxAgeGiven(o) then "max-age=" + IntToString(o.maxAge.value) else ""]
             + TrailingEntries(o, production))
  }

  /** set(name, value, options): the string assigned to `document.cookie`. */
  function CookieSet(name: string, value: string, o: CookieOptions, production: bool): (s: string)
    ensures StartsWith(s, name + "=" + value + "; " + PathAttribute(o) + "; ")
  {
    SetLayout(name, value, o, production);
    var parts := SetParts(name, value, o, production);
    JoinStartsWith(parts, "; ");
    JoinStartsWith(parts[1..], "; ");
    assert Join(parts, "; ") == parts[0] + "; " + Join(parts[1..], "; ");
    Join(parts, "; ")
  }

  /**
   * The filtered list is the reference list of present attributes: the
   * pair, the path ('/' by default), max-age only when non-zero, then the
   * trailing attributes.
   */
  lemma SetLayout(name: string, value: string, o: CookieOptions, production: bool)
    ensures SetParts(name, value, o, production)
         == [name + "=" + value, PathAttribute(o)]
            + Present(MaxAgeGiven(o), "max-age=" + IntToString(o.maxAge.GetOr(0)))
            + TrailingAttributes(o, production)
  {
    var m := if MaxAgeGiven(o) then "max-age=" + IntToString(o.maxAge.value) else "";
    var pair := name + "=" + value;
    var path := PathAttribute(o);
    var t := TrailingEntries(o, production);
    assert pair != "" by { assert pair[|name|] == '='; }
    assert path != "" by { assert path[0] == 'p'; }
    assert NonEmpty([m] + t) == Present(MaxAgeGiven(o), "max-age=" + IntToString(o.maxAge.GetOr(0))) + TrailingAttributes(o, production) by {
      NonEmptyCons(m, t);
      TrailingEntriesFiltered(o, production);
    }
    assert [pair, path, m] + t == [pair] + ([path] + ([m] + t));
    NonEmptyCons(pair, [path] + ([m] + t));
    NonEmptyCons(path, [m] + t);
  }

  /** Filtering a list with a known head. */
  lemma NonEmptyCons(x: string, xs: seq<string>)
    ensures NonEmpty([x] + xs) == (if x == "" then [] else [x]) + NonEmpty(xs)
  {
    assert ([x] + xs)[0] == x && ([x] + xs)[1..] == xs;
  }

  /** A max-age of 0 is falsy: it writes the same cookie as no max-age. */
  lemma ZeroMaxAgeIsOmitted(name: string, value: string, o: CookieOptions, production: bool)
    ensures CookieSet(name, value, o.(maxAge := Some(0)), production)
         == CookieSet(name, value, o.(maxAge := None), production)
  {
    SetLayout(name, value, o.(maxAge := Some(0)), production);
    SetLayout(name, value, o.(maxAge := None), production);
  }

  /** In production every cookie is written as if `secure` had been asked for. */
  lemma ProductionIsSecure(name: string, value: string, o: CookieOptions)
    ensures CookieSet(name, value, o, true) == CookieSet(name, value, o.(secure := true), false)
    ensures RemoveParts(name, o, true) == RemoveParts(name, o.(secure := true), false)
  {
    SetLayout(name, value, o, true);
    SetLayout(name, value, o.(secure := true), false);
    RemoveLayout(name, o, true);
    RemoveLayout(name, o.(secure := true), false);
  }

  /**
   * With no options outside production, set writes just the pair, the root
   * path and SameSite=Lax.
   */
  lemma SetDefaults(name: string, value: string)
    ensures CookieSet(name, value, CookieOptions(None, None, None, None, false, false), false)
         == name + "=" + value + "; path=/; SameSite=Lax"
  {
    var o := CookieOptions(None, None, None, None, false, false);
    var parts := [name + "=" + value, "path=/", "SameSite=Lax"];
    assert SetParts(name, value, o, false) == parts by {
      SetLayout(name, value, o, false);
      assert PathAttribute(o) == "path=/";
      assert !MaxAgeGiven(o) && !Truthy(o.domain) && !Truthy(o.sameSite);
      assert TrailingAttributes(o, false) == ["SameSite=Lax"];
    }
    assert Join(parts, "; ") == name + "=" + value + "; path=/; SameSite=Lax" by {
      JoinOfThree(parts, "; ");
    }
  }

  /** The entries `remove` lists, filtered as the source does. */
  function RemoveParts(name: string, o: CookieOptions, production: bool): (parts: seq<string>)
    ensures forall k :: 0 <= k < |parts| ==> parts[k] != ""
  {
    NonEmpty([name + "=", PathAttribute(o), "max-age=0", "expires=Thu, 01 Jan 1970 00:00:00 GMT"]
             + TrailingEntries(o, production))
  }

  /**
   * remove writes an empty value with the same path, a zero max-age and the
   * epoch as expiry, followed by the same trailing attributes set writes.
   */
  lemma RemoveLayout(name: string, o: CookieOptions, production: bool)
    ensures RemoveParts(name, o, production)
         == [name + "=", PathAttribute(o), "max-age=0", "expires=Thu, 01 Jan 1970 00:00:00 GMT"]
            + TrailingAttributes(o, production)
  {
    var head := [name + "=", PathAttribute(o), "max-age=0", "expires=Thu, 01 Jan 1970 00:00:00 GMT"];
    NonEmptyAppend(head, TrailingEntries(o, production));
    TrailingEntriesFiltered(o, production);
    assert head == [head[0]] + [head[1]] + [head[2]] + [head[3]];
    NonEmptyAppend([head[0]] + [head[1]] + [head[2]], [head[3]]);
    NonEmptyAppend([head[0]] + [head[1]], [head[2]]);
    NonEmptyAppend([head[0]], [head[1]]);
    NonEmptyEntry(head[0]);
    NonEmptyEntry(head[1]);
    NonEmptyEntry(head[2]);
    NonEmptyEntry(head[3]);
  }

  /** remove(name, options): the string assigned to `document.cookie`. */
  function CookieRemove(name: string, o: CookieOptions, production: bool): (s: string)
    ensures StartsWith(s, name + "=; " + PathAttribute(o) + "; max-age=0; ")
  {
    RemoveLayout(name, o, production);
    var parts := RemoveParts(name, o, production);
    var prefix := name + "=; " + PathAttribute(o) + "; max-age=0; ";
    JoinFirstThree(parts, "; ");
    assert parts[0] + "; " + parts[1] + "; " + parts[2] + "; " == prefix;
    PrefixStartsWith(prefix, Join(parts[3..], "; "));
    Join(parts, "; ")
  }

  /** A join of at least four parts, with its first three parts written out. */
  lemma JoinFirstThree(parts: seq<string>, sep: string)
    requires |parts| >= 4
    ensures Join(parts, sep) == parts[0] + sep + parts[1] + sep + parts[2] + sep + Join(parts[3..], sep)
  {
    assert parts[1..][1..] == parts[2..] && parts[2..][1..] == parts[3..];
    assert Join(parts[2..], sep) == parts[2] + sep + Join(parts[3..], sep);
    assert Join(parts[1..], sep) == parts[1] + sep + Join(parts[2..], sep);
  }

  lemma PrefixStartsWith(a: string, b: string)
    ensures StartsWith(a + b, a)
  {
    assert (a + b)[..|a|] == a;
  }
}
