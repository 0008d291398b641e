/**
 * The password-reset landing page (src/app/auth/update-password/page.tsx):
 * its recovery-link check and its two-field validation.
 */
module UpdatePasswordPage {
  import opened Strings

  // ---------------------------------------------------------------------------
  // The link check
  // ---------------------------------------------------------------------------

  /** `isValidLink` starts out true. */
  const InitialLinkValidity := true

  /**
   * One run of the session check: with no user once loading has finished,
   * a hash that is empty or lacks 'type=recovery' marks the link invalid.
   * Nothing ever marks it valid again.
   */
  function NextLinkValidity(isValidLink: bool, hasUser: bool, loading: bool, hash: string): bool {
    if !hasUser && !loading && (hash == "" || !Contains(hash, "type=recovery")) then false
    else isValidLink
  }

  /**
   * The check flips the flag to false exactly when there is no user,
   * loading is over and the hash carries no recovery marker; otherwise it
   * leaves the flag alone, so an invalid link stays invalid.
   */
  lemma LinkCheck(isValidLink: bool, hasUser: bool, loading: bool, hash: string)
    ensures var next := NextLinkValidity(isValidLink, hasUser, loading, hash);
      && (isValidLink && !next <==> isValidLink && !hasUser && !loading && !Contains(hash, "type=recovery"))
      && (!isValidLink ==> !next)
      && (hasUser || loading ==> next == isValidLink)
  {
    if hash == "" {
      assert !OccursAt(hash, "type=recovery", 0);
    }
  }

  // ---------------------------------------------------------------------------
  // validateForm
  // ---------------------------------------------------------------------------

  /** The two error strings after validation ('' clears), and the verdict. */
  datatype Validation = Validation(passwordError: string, confirmPasswordError: string, isValid: bool)

  function PasswordError(password: string): string {
    if password == "" then "Nova senha é obrigatória"
    else if |password| < 6 then "A senha deve ter pelo menos 6 caracteres"
    else ""
  }

  function ConfirmError(password: string, confirmPassword: string): string {
    if confirmPassword == "" then "Confirme sua nova senha"
    else if password != confirmPassword then "As senhas não coincidem"
    else ""
  }

  /** Both ladders run, each setting its error; the form is valid iff both end cleared. */
  function ValidateForm(password: string, confirmPassword: string): (v: Validation)
    ensures v.isValid <==> v.passwordError == "" && v.confirmPasswordError == ""
  {
    var p := PasswordError(password);
    var c := ConfirmError(password, confirmPassword);
    Validation(p, c, p == "" && c == "")
  }

  /** Exactly: at least six characters, repeated in the confirmation. */
  lemma ValidIffRequirementsMet(password: string, confirmPassword: string)
    ensures ValidateForm(password, confirmPassword).isValid <==>
      |password| >= 6 && confirmPassword == password
  {
  }

  /**
   * The confirmation is judged even when the password itself is refused: an
   * empty password with a non-empty confirmation reports both problems.
   */
  lemma BothChecksRun(confirmPassword: string)
    requires confirmPassword != ""
    ensures var v := ValidateForm("", confirmPassword);
      v.passwordError == "Nova senha é obrigatória" && v.confirmPasswordError == "As senhas não coincidem"
  {
  }

  datatype SubmitAction = UpdatePassword(newPassword: string) | NoCall

  /** handleSubmit: `updatePassword` runs only after a successful validation. */
  function HandleSubmit(password: string, confirmPassword: string): (a: SubmitAction)
    ensures a.NoCall? <==> !ValidateForm(password, confirmPassword).isValid
    ensures a.UpdatePassword? ==> a.newPassword == password
  {
    if !ValidateForm(password, confirmPassword).isValid then NoCall else UpdatePassword(password)
  }
}
