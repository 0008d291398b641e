/**
 * The forgot-password page (src/app/auth/forgot-password/page.tsx): one
 * address check with the unanchored pattern, then the reset request.
 */
module ForgotPasswordPage {
  import opened Wrappers
  import opened EmailPattern
  import SignupForm

  /** The error string after validation ('' clears) and the verdict. */
  datatype Validation = Validation(emailError: string, isValid: bool)

  /** validateEmail */
  function ValidateEmail(email: string): (v: Validation)
    ensures v.isValid <==> v.emailError == ""
    ensures email == "" ==> v.emailError == "Email é obrigatório"
  {
    if email == "" then Validation("Email é obrigatório", false)
    else if !LooseCheck(email) then Validation("Email inválido", false)
    else Validation("", true)
  }

  /** An address is accepted iff some part of it matches `\S+@\S+\.\S+`. */
  lemma ValidIffPatternMatches(email: string)
    ensures ValidateEmail(email).isValid <==> LooseMatch(email)
    ensures email != "" && !LooseMatch(email) <==> ValidateEmail(email).emailError == "Email inválido"
  {
    LooseCheckIsPattern(email);
  }

  /**
   * Every address the sign-up form accepts is accepted here, but not the
   * other way round: whitespace around a valid core passes here only.
   */
  lemma LooserThanSignup(email: string)
    ensures SignupForm.EmailError(email).None? ==> ValidateEmail(email).isValid
    ensures ValidateEmail(" a@b.c ").isValid && SignupForm.EmailError(" a@b.c ") == Some("Email inválido")
  {
    StrictCheckIsPattern(email);
    if StrictMatch(email) {
      StrictImpliesLoose(email);
      LooseCheckIsPattern(email);
    }
    PatternsDiffer();
  }

  datatype SubmitAction = ResetPassword(email: string) | NoCall

  /** handleSubmit: `resetPassword` runs only after a successful validation. */
  function HandleSubmit(email: string): (a: SubmitAction)
    ensures a.NoCall? <==> !ValidateEmail(email).isValid
    ensures a.ResetPassword? ==> a.email == email
  {
    if !ValidateEmail(email).isValid then NoCall else ResetPassword(email)
  }
}
