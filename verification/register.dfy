/**
  The register page's form logic: the group validator that compares the two
  password fields, and the submit handler's guard and error handling. The
  field validators (`required`, `email`, `minLength(8)`) are summarised by one
  input saying whether they all pass; `register` (a pass-through to the
  identity provider's sign-up) is an input outcome.
 */
module Register {
  import opened Common

  const PasswordField := "password"
  const ConfirmPasswordField := "confirmPassword"
  const EmailField := "email"
  const ConfirmRegisterPath := "/auth/confirm-register"
  const RegisterFallbackMessage := "Ocurrió un error durante el registro."

  /** A form control's value as the register form can hold it. */
  datatype ControlValue = Undefined | Null | Text(text: string)

  datatype Control = Control(value: ControlValue, touched: bool)

  /** A form group: its controls by name. */
  type FormGroup = map<string, Control>

  /** The error object `{ passwordsMismatch: true }`. */
  datatype ValidationErrors = PasswordsMismatch

  /** `formGroup.get(name)?.value`: undefined when there is no such control. */
  function ValueOf(g: FormGroup, name: string): ControlValue {
    if name in g then g[name].value else Undefined
  }

  /** `passwordsMatchValidator(formGroup)`: null exactly when the two values are strictly equal. */
  function PasswordsMatchValidator(g: FormGroup): (r: Option<ValidationErrors>)
    ensures r.None? <==> ValueOf(g, PasswordField) == ValueOf(g, ConfirmPasswordField)
    ensures r.Some? ==> r.value == PasswordsMismatch
  {
    if ValueOf(g, PasswordField) == ValueOf(g, ConfirmPasswordField) then None else Some(PasswordsMismatch)
  }

  /** Swapping the two password controls does not change the verdict. */
  lemma ValidatorSymmetric(g: FormGroup, p: Control, c: Control)
    ensures PasswordsMatchValidator(g[PasswordField := p][ConfirmPasswordField := c]) ==
            PasswordsMatchValidator(g[PasswordField := c][ConfirmPasswordField := p])
  {
  }

  /** Controls other than the two password fields play no part. */
  lemma ValidatorIgnoresOtherControls(g: FormGroup, name: string, ctl: Control)
    requires name != PasswordField && name != ConfirmPasswordField
    ensures PasswordsMatchValidator(g[name := ctl]) == PasswordsMatchValidator(g)
  {
  }

  /** With both password controls missing, both values are undefined and the group is valid. */
  lemma ValidatorAcceptsBothMissing(g: FormGroup)
    requires PasswordField !in g && ConfirmPasswordField !in g
    ensures PasswordsMatchValidator(g).None?
  {
  }

  /** Strict equality: a missing value, `null` and the empty string are three different values. */
  lemma ValidatorIsStrict(g: FormGroup)
    requires PasswordField in g && g[PasswordField].value == Text("")
    ensures PasswordsMatchValidator(g[ConfirmPasswordField := Control(Null, false)]) == Some(PasswordsMismatch)
    ensures ConfirmPasswordField !in g ==> PasswordsMatchValidator(g) == Some(PasswordsMismatch)
  {
  }

  /** `formGroup.invalid`: some field validator fails or the group validator reports an error. */
  predicate Invalid(g: FormGroup, fieldsValid: bool) {
    !fieldsValid || PasswordsMatchValidator(g).Some?
  }

  /** `markAllAsTouched()`: every control becomes touched and keeps its value. */
  function MarkAllAsTouched(g: FormGroup): (r: FormGroup)
    ensures r.Keys == g.Keys
    ensures forall name :: name in r ==> r[name] == g[name].(touched := true)
  {
    map name | name in g :: g[name].(touched := true)
  }

  datatype Page = Page(form: FormGroup, errorMessage: Option<string>)

  /** What `register` was called with. */
  datatype RegisterCall = RegisterCall(email: ControlValue, password: ControlValue)

  /** A navigation to `path` with an `email` query parameter. */
  datatype Navigation = Navigation(path: string, email: ControlValue)

  datatype Submitted = Submitted(page: Page, call: Option<RegisterCall>, navigation: Option<Navigation>)

  /** The message shown for a failed registration: the error's own, or the fixed fallback. */
  function ErrorText(e: JsError): (r: string)
    ensures r != ""
    ensures e.message != "" ==> r == e.message
    ensures e.message == "" ==> r == RegisterFallbackMessage
  {
    if e.message != "" then e.message else RegisterFallbackMessage
  }

  /**
    `onRegister()`. An invalid form only gets all its controls marked touched:
    nothing is called and the error message stays. A valid form clears the
    message and calls `register(email, password)`; on success the page moves
    to the confirmation route with the email, on failure the message is set.
   */
  function OnRegister<U>(p: Page, fieldsValid: bool, register: Outcome<U>): (r: Submitted)
    ensures Invalid(p.form, fieldsValid) ==>
              && r.call.None? && r.navigation.None?
              && r.page.errorMessage == p.errorMessage
              && r.page.form == MarkAllAsTouched(p.form)
    ensures !Invalid(p.form, fieldsValid) ==>
              && r.call == Some(RegisterCall(ValueOf(p.form, EmailField), ValueOf(p.form, PasswordField)))
              && r.page.form == p.form
    ensures !Invalid(p.form, fieldsValid) && register.Returned? ==>
              r.page.errorMessage.None? && r.navigation == Some(Navigation(ConfirmRegisterPath, ValueOf(p.form, EmailField)))
    ensures !Invalid(p.form, fieldsValid) && register.Threw? ==>
              r.navigation.None? && r.page.errorMessage == Some(ErrorText(register.error))
  {
    if Invalid(p.form, fieldsValid) then
      Submitted(p.(form := MarkAllAsTouched(p.form)), None, None)
    else
      var email, password := ValueOf(p.form, EmailField), ValueOf(p.form, PasswordField);
      var cleared := p.(errorMessage := None);
      match register
      case Returned(_) => Submitted(cleared, Some(RegisterCall(email, password)), Some(Navigation(ConfirmRegisterPath, email)))
      case Threw(e) => Submitted(cleared.(errorMessage := Some(ErrorText(e))), Some(RegisterCall(email, password)), None)
  }

  /** Mismatched passwords always block the submit, whatever the field validators say. */
  lemma MismatchBlocksSubmit<U>(p: Page, fieldsValid: bool, register: Outcome<U>)
    requires ValueOf(p.form, PasswordField) != ValueOf(p.form, ConfirmPasswordField)
    ensures OnRegister(p, fieldsValid, register).call.None?
  {
  }

  /** A failure without a message shows the fixed fallback text. */
  lemma EmptyMessageFallsBack<U>(p: Page)
    requires !Invalid(p.form, true)
    ensures OnRegister<U>(p, true, Threw(JsError(""))).page.errorMessage == Some(RegisterFallbackMessage)
  {
  }
}
