/**
 * The OAuth callback page (src/app/auth/callback/client.tsx): reading the
 * `redirectAfterLogin` cookie and choosing where to send the user.
 */
module AuthCallback {
  import opened Wrappers
  import opened Strings

  /** The marker the lookup splits on: `; ${name}=` */
  function Marker(name: string): (m: string)
    ensures |m| == |name| + 3
  {
    "; " + name + "="
  }

  /**
   * getCookie(name) over `document.cookie`.  Split `'; ' + cookie` on the
   * marker.  With exactly two parts, the value is the second part up to its
   * first ';', and null when that is empty.  Any other count gives null.
   */
  function GetCookie(cookie: string, name: string): (r: Option<string>)
    ensures r.Some? ==> r.value != "" && !Contains(r.value, ";")
    ensures r.Some? ==> Contains("; " + cookie, Marker(name))
    ensures !Contains("; " + cookie, Marker(name)) ==> r.None?
  {
    var parts := Split("; " + cookie, Marker(name));
    if |parts| == 2 then
      var v := Split(parts[1], ";")[0];
      if v == "" then None else Some(v)
    else None
  }

  /**
   * The value ends at the first ';' after the marker.  It holds no ';'
   * (GetCookie's contract), and it is either all of the text that follows
   * the marker's only occurrence or that text's start up to a ';'.
   */
  lemma ValueStopsAtSemicolon(cookie: string, name: string)
    requires GetCookie(cookie, name).Some?
    ensures var parts := Split("; " + cookie, Marker(name));
      var value := GetCookie(cookie, name).value;
      && |parts| == 2
      && (parts[1] == value || StartsWith(parts[1], value + ";"))
  {
    var parts := Split("; " + cookie, Marker(name));
    var inner := Split(parts[1], ";");
    if |inner| > 1 {
      JoinStartsWith(inner, ";");
    }
  }

  /**
   * A marker that occurs exactly once is read: the value is the text after
   * it up to its first ';', and null only when that text is empty.
   */
  lemma LoneMarkerIsRead(cookie: string, name: string, i: nat)
    requires OccursAt("; " + cookie, Marker(name), i)
    requires forall j :: 0 <= j <= |"; " + cookie| && OccursAt("; " + cookie, Marker(name), j) ==> j == i
    ensures var v := Split(("; " + cookie)[i + |Marker(name)|..], ";")[0];
      GetCookie(cookie, name) == (if v == "" then None else Some(v))
  {
    var s, m := "; " + cookie, Marker(name);
    assert Contains(s, m);
    assert IndexOf(s, m) == Some(i);
    var o := i + |m|;
    var rest := s[o..];
    assert !Contains(rest, m) by {
      forall j | 0 <= j <= |rest| ensures !OccursAt(rest, m, j) {
        if OccursAt(rest, m, j) {
          SliceOfSuffix(s, o, j, |m|);
          assert OccursAt(s, m, o + j);
        }
      }
    }
    assert Split(rest, m) == [rest];
    assert Split(s, m) == [s[..i], rest];
  }

  /** A slice of a suffix is a slice of the whole string. */
  lemma SliceOfSuffix(s: string, o: nat, j: nat, n: nat)
    requires o + j + n <= |s|
    ensures s[o..][j..j + n] == s[o + j..o + j + n]
  {
  }

  /** Two separate occurrences of the separator give at least three parts. */
  lemma {:induction false} TwoOccurrencesSplitThrice(s: string, sep: string, i: nat, j: nat)
    requires |sep| > 0 && OccursAt(s, sep, i) && OccursAt(s, sep, j) && i + |sep| <= j
    ensures |Split(s, sep)| >= 3
  {
    var f := IndexOf(s, sep).value;
    assert f <= i;
    var rest := s[f + |sep|..];
    var j' := j - (f + |sep|);
    assert rest[j'..j' + |sep|] == s[j..j + |sep|];
    assert OccursAt(rest, sep, j');
    assert Split(s, sep) == [s[..f]] + Split(rest, sep);
  }

  /** A cookie set twice under the same name reads as absent. */
  lemma DuplicateNameReadsNull(cookie: string, name: string, i: nat, j: nat)
    requires OccursAt("; " + cookie, Marker(name), i) && OccursAt("; " + cookie, Marker(name), j)
    requires i + |Marker(name)| <= j
    ensures GetCookie(cookie, name).None?
  {
    TwoOccurrencesSplitThrice("; " + cookie, Marker(name), i, j);
  }

  /** The '; ' boundary is required: a cookie named 'xname' is not 'name'. */
  lemma NeedsBoundary()
    ensures GetCookie("xname=v", "name").None?
  {
    var s := "; " + "xname=v";
    var m := Marker("name");
    assert m == "; name=";
    forall i | 0 <= i <= |s| ensures !OccursAt(s, m, i) {
      if i + |m| <= |s| {
        assert s[i..i + |m|][0] == s[i];
        assert s[i..i + |m|][2] == s[i + 2];
      }
    }
  }

  /** After login: the stored path when there is one, otherwise the profile page. */
  function RedirectTarget(redirectPath: Option<string>): (target: string)
    ensures redirectPath.Some? && redirectPath.value != "" ==> target == redirectPath.value
    ensures redirectPath.None? ==> target == "/profile"
  {
    if redirectPath.Some? && redirectPath.value != "" then redirectPath.value else "/profile"
  }

  /** The target is never empty, whatever the cookie holds. */
  lemma TargetNeverEmpty(cookie: string)
    ensures RedirectTarget(GetCookie(cookie, "redirectAfterLogin")) != ""
  {
  }
}
