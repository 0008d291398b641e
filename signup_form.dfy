/**
 * The sign-up form's validation (src/components/SignupForm.tsx).
 *
 * validateForm starts from an empty error record, puts at most one message
 * on each field, and reports whether it put none.  handleSubmit registers
 * the user only after a successful validation.
 */
module SignupForm {
  import opened Wrappers
  import opened EmailPattern

  /** Passwords shorter than this are refused. */
  const MinPasswordLength: nat := 6

  datatype Fields = Fields(displayName: string, email: string, password: string, confirmPassword: string)

  /** The error record; a missing key is None. */
  datatype Errors = Errors(displayName: Option<string>, email: Option<string>,
                           password: Option<string>, confirmPassword: Option<string>)

  const NoErrors := Errors(None, None, None, None)

  datatype Validation = Validation(errors: Errors, isValid: bool)

  /** Required first, then the anchored address pattern. */
  function EmailError(email: string): Option<string> {
    if email == "" then Some("Email é obrigatório")
    else if !StrictCheck(email) then Some("Email inválido")
    else None
  }

  /** Required first, then the minimum length. */
  function PasswordError(password: string): Option<string> {
    if password == "" then Some("Senha é obrigatória")
    else if |password| < MinPasswordLength then Some("A senha deve ter pelo menos 6 caracteres")
    else None
  }

  function ConfirmError(password: string, confirmPassword: string): Option<string> {
    if confirmPassword == "" then Some("Confirme sua senha")
    else if password != confirmPassword then Some("As senhas não coincidem")
    else None
  }

  /** validateForm: the error record, and true iff it has no entry. */
  function ValidateForm(f: Fields): (v: Validation)
    ensures v.isValid <==> v.errors == NoErrors
  {
    var errors := Errors(
      if f.displayName == "" then Some("Nome é obrigatório") else None,
      EmailError(f.email),
      PasswordError(f.password),
      ConfirmError(f.password, f.confirmPassword));
    Validation(errors, errors == NoErrors)
  }

  /**
   * The form is accepted exactly when there is a name, the address matches
   * the anchored pattern, the password has at least six characters, and the
   * confirmation repeats it.
   */
  lemma ValidIffRequirementsMet(f: Fields)
    ensures ValidateForm(f).isValid <==>
      && f.displayName != ""
      && StrictMatch(f.email)
      && |f.password| >= MinPasswordLength
      && f.confirmPassword == f.password
  {
    StrictCheckIsPattern(f.email);
    StrictCheckIsPattern("");
  }

  /**
   * Each field's message.  An empty field gets its "required" message,
   * whatever else is wrong.  A password of exactly the minimum length passes.
   */
  lemma FieldMessages(f: Fields)
    ensures f.displayName == "" <==> ValidateForm(f).errors.displayName == Some("Nome é obrigatório")
    ensures f.email == "" <==> ValidateForm(f).errors.email == Some("Email é obrigatório")
    ensures f.email != "" && !StrictMatch(f.email) <==> ValidateForm(f).errors.email == Some("Email inválido")
    ensures f.password == "" <==> ValidateForm(f).errors.password == Some("Senha é obrigatória")
    ensures 0 < |f.password| < MinPasswordLength <==>
      ValidateForm(f).errors.password == Some("A senha deve ter pelo menos 6 caracteres")
    ensures |f.password| == MinPasswordLength ==> ValidateForm(f).errors.password.None?
    ensures f.confirmPassword == "" <==> ValidateForm(f).errors.confirmPassword == Some("Confirme sua senha")
    ensures f.confirmPassword != "" && f.confirmPassword != f.password <==>
      ValidateForm(f).errors.confirmPassword == Some("As senhas não coincidem")
  {
    StrictCheckIsPattern(f.email);
  }

  /** What handleSubmit goes on to do. */
  datatype SubmitAction = Register(email: string, password: string, displayName: string) | NoCall

  function HandleSubmit(f: Fields): (a: SubmitAction)
    ensures a.NoCall? <==> !ValidateForm(f).isValid
    ensures a.Register? ==> a == Register(f.email, f.password, f.displayName)
  {
    if !ValidateForm(f).isValid then NoCall else Register(f.email, f.password, f.displayName)
  }
}
