/**
 * The two pure helpers of the authentication hook (src/hooks/useAuth.tsx):
 * turning a Supabase user into the application's user record, and turning
 * an error value into the message shown to the user.
 */
module Auth {
  import opened Wrappers
  import opened Strings

  // ---------------------------------------------------------------------------
  // convertUser
  // ---------------------------------------------------------------------------

  /** The part of `user_metadata` the application reads. */
  datatype UserMetadata = UserMetadata(name: Option<string>, avatarUrl: Option<string>)

  /** The fields of a Supabase `User` the application reads. */
  datatype SupabaseUser = SupabaseUser(id: string, email: Option<string>, metadata: Option<UserMetadata>)

  datatype AppUser = AppUser(uid: string, email: Option<string>, displayName: Option<string>,
                             photoURL: Option<string>)

  /** `x || null` on a string that may be missing: the empty string is falsy too. */
  function OrNull(x: Option<string>): (r: Option<string>)
    ensures r.Some? <==> x.Some? && x.value != ""
    ensures r.Some? ==> r == x
  {
    if x.Some? && x.value != "" then x else None
  }

  /**
   * convertUser: the uid is the Supabase id.  Email, name and avatar are
   * copied when present and non-empty, and are null otherwise.
   */
  function ConvertUser(u: SupabaseUser): (a: AppUser)
    ensures a.uid == u.id
    ensures a.email.Some? <==> u.email.Some? && u.email.value != ""
    ensures a.email.Some? ==> a.email == u.email
    ensures a.displayName.Some? <==> u.metadata.Some? && u.metadata.value.name.Some? && u.metadata.value.name.value != ""
    ensures a.displayName.Some? ==> a.displayName == u.metadata.value.name
    ensures a.photoURL.Some? <==> u.metadata.Some? && u.metadata.value.avatarUrl.Some? && u.metadata.value.avatarUrl.value != ""
    ensures a.photoURL.Some? ==> a.photoURL == u.metadata.value.avatarUrl
  {
    AppUser(u.id,
            OrNull(u.email),
            if u.metadata.Some? then OrNull(u.metadata.value.name) else None,
            if u.metadata.Some? then OrNull(u.metadata.value.avatarUrl) else None)
  }

  // ---------------------------------------------------------------------------
  // handleAuthError
  // ---------------------------------------------------------------------------

  /** What `handleAuthError` can be handed. */
  datatype ErrorValue =
    | Falsy                        // null, undefined, false, 0, ''
    | WithMessage(message: string) // an object with a string `message` property
    | WithoutMessage               // an object with no `message` property
    | TruthyPrimitive              // e.g. a non-empty string: `'message' in e` throws

  /** The handler returns a message, or throws a TypeError. */
  datatype Outcome = Returns(text: string) | ThrowsTypeError

  const UnknownError := "Erro desconhecido"
  const UnexpectedError := "Ocorreu um erro inesperado"

  /** The known Supabase messages and their replacements, in the order they are tried. */
  const FriendlyMessages: seq<(string, string)> := [
    ("Invalid login credentials", "Email ou senha incorretos"),
    ("Email not confirmed", "Email não confirmado. Verifique sua caixa de entrada."),
    ("Rate limit exceeded", "Muitas tentativas. Tente novamente mais tarde."),
    ("Email already registered", "Email já cadastrado")
  ]

  function HandleAuthError(e: ErrorValue): Outcome {
    match e
    case Falsy => Returns(UnknownError)
    case TruthyPrimitive => ThrowsTypeError
    case WithoutMessage => Returns(UnexpectedError)
    case WithMessage(message) =>
      if Contains(message, "Invalid login credentials") then Returns("Email ou senha incorretos")
      else if Contains(message, "Email not confirmed") then Returns("Email não confirmado. Verifique sua caixa de entrada.")
      else if Contains(message, "Rate limit exceeded") then Returns("Muitas tentativas. Tente novamente mais tarde.")
      else if Contains(message, "Email already registered") then Returns("Email já cadastrado")
      else Returns(message)
  }

  /** The first rule whose pattern the message contains, if any. */
  function FirstMatch(rules: seq<(string, string)>, message: string): (r: Option<nat>)
    ensures r.Some? ==> r.value < |rules| && Contains(message, rules[r.value].0)
    ensures r.Some? ==> forall k :: 0 <= k < r.value ==> !Contains(message, rules[k].0)
    ensures r.None? ==> forall k :: 0 <= k < |rules| ==> !Contains(message, rules[k].0)
  {
    if |rules| == 0 then None
    else if Contains(message, rules[0].0) then Some(0)
    else match FirstMatch(rules[1..], message)
      case None => None
      case Some(k) => Some(k + 1)
  }

  /**
   * For a message, the handler is the rule table read top to bottom: the
   * first rule whose pattern occurs in the message decides the text, and a
   * message that matches no rule is returned unchanged.
   */
  lemma {:induction false} HandleAuthErrorIsFirstMatch(message: string)
    ensures HandleAuthError(WithMessage(message)) ==
      match FirstMatch(FriendlyMessages, message)
      case Some(k) => Returns(FriendlyMessages[k].1)
      case None => Returns(message)
  {
    var rs := FriendlyMessages;
    var r1, r2, r3 := rs[1..], rs[2..], rs[3..];
    assert r1[1..] == r2 && r2[1..] == r3 && r3[1..] == [];
    assert r1[0] == rs[1] && r2[0] == rs[2] && r3[0] == rs[3];
    if !Contains(message, rs[0].0) && !Contains(message, rs[1].0) && !Contains(message, rs[2].0) {
      assert FirstMatch(r3, message) == (if Contains(message, rs[3].0) then Some(0) else None);
    }
  }

  /** The fixed cases: falsy values, objects without a message, and primitives. */
  lemma HandleAuthErrorFixedCases()
    ensures HandleAuthError(Falsy) == Returns("Erro desconhecido")
    ensures HandleAuthError(WithoutMessage) == Returns("Ocorreu um erro inesperado")
    ensures HandleAuthError(TruthyPrimitive) == ThrowsTypeError
  {
  }

  /**
   * A message containing more than one known pattern gets the text of the
   * earliest rule: wrong credentials win over a rate limit.
   */
  lemma FirstRuleWins()
    ensures HandleAuthError(WithMessage("Rate limit exceeded: Invalid login credentials"))
         == Returns("Email ou senha incorretos")
  {
    var m := "Rate limit exceeded: Invalid login credentials";
    assert m == "Rate limit exceeded: " + "Invalid login credentials";
    assert m[21..21 + |"Invalid login credentials"|] == "Invalid login credentials";
    assert OccursAt(m, "Invalid login credentials", 21);
  }

  /** Every text returned for a message is either a replacement or the message itself. */
  lemma MessageResultIsKnown(message: string)
    ensures var r := HandleAuthError(WithMessage(message));
      r.Returns? && (r.text == message || exists k :: 0 <= k < |FriendlyMessages| && r.text == FriendlyMessages[k].1)
  {
    HandleAuthErrorIsFirstMatch(message);
  }
}
