/**
 * The log-in form's validation (src/components/LoginForm.tsx): the same
 * address and password rules as sign-up, over two fields only.
 */
module LoginForm {
  import opened Wrappers
  import opened EmailPattern
  import SignupForm

  datatype Fields = Fields(email: string, password: string)

  datatype Errors = Errors(email: Option<string>, password: Option<string>)

  datatype Validation = Validation(errors: Errors, isValid: bool)

  /** validateForm: the error record, and true iff it has no entry. */
  function ValidateForm(f: Fields): (v: Validation)
    ensures v.isValid <==> v.errors == Errors(None, None)
  {
    var emailError :=
      if f.email == "" then Some("Email é obrigatório")
      else if !StrictCheck(f.email) then Some("Email inválido")
      else None;
    var passwordError :=
      if f.password == "" then Some("Senha é obrigatória")
      else if |f.password| < 6 then Some("A senha deve ter pelo menos 6 caracteres")
      else None;
    var errors := Errors(emailError, passwordError);
    Validation(errors, errors == Errors(None, None))
  }

  /** The form is accepted exactly for a matching address and a six-character password. */
  lemma ValidIffRequirementsMet(f: Fields)
    ensures ValidateForm(f).isValid <==> StrictMatch(f.email) && |f.password| >= 6
  {
    StrictCheckIsPattern(f.email);
    StrictCheckIsPattern("");
  }

  /** Both fields get exactly the message the sign-up form gives them. */
  lemma SameRulesAsSignup(f: Fields, g: SignupForm.Fields)
    requires g.email == f.email && g.password == f.password
    ensures ValidateForm(f).errors.email == SignupForm.ValidateForm(g).errors.email
    ensures ValidateForm(f).errors.password == SignupForm.ValidateForm(g).errors.password
  {
  }

  datatype SubmitAction = Login(email: string, password: string) | NoCall

  /** handleSubmit: `login` runs only after a successful validation. */
  function HandleSubmit(f: Fields): (a: SubmitAction)
    ensures a.NoCall? <==> !ValidateForm(f).isValid
    ensures a.Login? ==> a == Login(f.email, f.password)
  {
    if !ValidateForm(f).isValid then NoCall else Login(f.email, f.password)
  }
}
