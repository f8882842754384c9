/** The signup page: its form record, `validateForm`, `handleChange`, the role cards
    and `getSelectedRole`. */
module Signup {
  import opened Wrappers
  import opened Seqs
  import opened Text
  import opened FormRules

  datatype SignupForm = SignupForm(
    name: string, email: string, password: string, confirmPassword: string,
    role: string, institution: string, agreeToTerms: bool)

  const InitialForm := SignupForm("", "", "", "", "student", "", false)

  const PasswordRequired := "Password is required"
  const PasswordTooShort := "Password must be at least 8 characters"
  const PasswordsDiffer := "Passwords do not match"
  const InstitutionRequired := "Please select an institution"
  const TermsRequired := "You must agree to the terms"
  const MinPasswordLength := 8

  const SignupKeys := {"name", "email", "password", "confirmPassword", "institution", "agreeToTerms"}

  /** The rule `validateForm` applies to the field named `key`. */
  function SignupRule(f: SignupForm, key: string): (r: Option<string>)
    ensures r.Some? ==> r.value != ""
  {
    if key == "name" then NameRule(f.name)
    else if key == "email" then EmailRule(f.email)
    else if key == "password" then
      (if f.password == "" then Some(PasswordRequired)
       else if |f.password| < MinPasswordLength then Some(PasswordTooShort)
       else None)
    else if key == "confirmPassword" then
      (if f.password != f.confirmPassword then Some(PasswordsDiffer) else None)
    else if key == "institution" then
      (if f.institution == "" then Some(InstitutionRequired) else None)
    else if key == "agreeToTerms" then
      (if !f.agreeToTerms then Some(TermsRequired) else None)
    else None
  }

  /** `validateForm`'s error map: one entry per failed rule, keyed by field name. */
  function ValidateSignup(f: SignupForm): (errors: Errors)
    ensures errors.Keys <= SignupKeys
    ensures forall k :: k in errors ==> errors[k] != ""
    ensures NoErrors(errors) <==> forall k :: k in SignupKeys ==> SignupRule(f, k).None?
  {
    var rule := k => SignupRule(f, k);
    NoErrorsIffAllPass(SignupKeys, rule);
    CollectErrors(SignupKeys, rule)
  }

  /** The name and email entries of `validateForm`'s error map. */
  lemma SignupNameAndEmailErrors(f: SignupForm)
    ensures var errors := ValidateSignup(f);
      && ("name" in errors <==> IsBlank(f.name))
      && ("name" in errors ==> errors["name"] == NameRequired)
      && (("email" in errors && errors["email"] == EmailRequired) <==> IsBlank(f.email))
      && (("email" in errors && errors["email"] == EmailInvalid) <==>
            !IsBlank(f.email) && !MatchesEmailRegex(f.email))
      && ("email" in errors ==> errors["email"] == EmailRequired || errors["email"] == EmailInvalid)
  {
  }

  /** The password entries of `validateForm`'s error map. */
  lemma SignupPasswordErrors(f: SignupForm)
    ensures var errors := ValidateSignup(f);
      && (("password" in errors && errors["password"] == PasswordRequired) <==> |f.password| == 0)
      && (("password" in errors && errors["password"] == PasswordTooShort) <==> 0 < |f.password| < MinPasswordLength)
      && ("password" in errors ==> errors["password"] == PasswordRequired || errors["password"] == PasswordTooShort)
      && ("confirmPassword" in errors <==> f.password != f.confirmPassword)
      && ("confirmPassword" in errors ==> errors["confirmPassword"] == PasswordsDiffer)
  {
  }

  /** The institution and terms entries of `validateForm`'s error map. */
  lemma SignupInstitutionAndTermsErrors(f: SignupForm)
    ensures var errors := ValidateSignup(f);
      && ("institution" in errors <==> |f.institution| == 0)
      && ("institution" in errors ==> errors["institution"] == InstitutionRequired)
      && ("agreeToTerms" in errors <==> !f.agreeToTerms)
      && ("agreeToTerms" in errors ==> errors["agreeToTerms"] == TermsRequired)
  {
  }

  /** `validateForm()`'s verdict: the form passes exactly when every rule holds. */
  function SignupIsValid(f: SignupForm): (ok: bool)
    ensures ok <==>
      && !IsBlank(f.name)
      && !IsBlank(f.email) && MatchesEmailRegex(f.email)
      && |f.password| >= MinPasswordLength
      && f.password == f.confirmPassword
      && |f.institution| > 0
      && f.agreeToTerms
  {
    SignupRulesPass(f);
    NoErrors(ValidateSignup(f))
  }

  lemma SignupRulesPass(f: SignupForm)
    ensures (forall k :: k in SignupKeys ==> SignupRule(f, k).None?) <==>
      && !IsBlank(f.name)
      && !IsBlank(f.email) && MatchesEmailRegex(f.email)
      && |f.password| >= MinPasswordLength
      && f.password == f.confirmPassword
      && |f.institution| > 0
      && f.agreeToTerms
  {
    var pass := forall k :: k in SignupKeys ==> SignupRule(f, k).None?;
    if pass {
      assert SignupRule(f, "name").None? && SignupRule(f, "email").None?;
      assert SignupRule(f, "password").None? && SignupRule(f, "confirmPassword").None?;
      assert SignupRule(f, "institution").None? && SignupRule(f, "agreeToTerms").None?;
    } else {
      var k :| k in SignupKeys && SignupRule(f, k).Some?;
      if k == "name" {
        assert IsBlank(f.name);
      } else if k == "email" {
        assert IsBlank(f.email) || !MatchesEmailRegex(f.email);
      } else if k == "password" {
        assert |f.password| < MinPasswordLength;
      } else if k == "confirmPassword" {
        assert f.password != f.confirmPassword;
      } else if k == "institution" {
        assert |f.institution| == 0;
      } else {
        assert !f.agreeToTerms;
      }
    }
  }

  /** The inputs wired to `handleChange`, by their `name` attribute. */
  datatype TextField = NameField | EmailField | PasswordField | ConfirmPasswordField | InstitutionField

  /** A change event: a text input or select delivers `value`, the terms checkbox `checked`. */
  datatype ChangeEvent = TextChange(field: TextField, value: string) | TermsChange(checked: bool)

  function FieldName(f: TextField): string {
    match f
    case NameField => "name"
    case EmailField => "email"
    case PasswordField => "password"
    case ConfirmPasswordField => "confirmPassword"
    case InstitutionField => "institution"
  }

  function EventName(e: ChangeEvent): string {
    match e
    case TextChange(f, _) => FieldName(f)
    case TermsChange(_) => "agreeToTerms"
  }

  function TextValue(form: SignupForm, f: TextField): string {
    match f
    case NameField => form.name
    case EmailField => form.email
    case PasswordField => form.password
    case ConfirmPasswordField => form.confirmPassword
    case InstitutionField => form.institution
  }

  datatype SignupPage = SignupPage(form: SignupForm, errors: Errors, isSubmitting: bool, isSubmitted: bool)

  const InitialPage := SignupPage(InitialForm, map[], false, false)

  /** `handleChange`: store the event's value (or `checked` for the checkbox) in its field
      and clear that field's error only. */
  function HandleChange(page: SignupPage, e: ChangeEvent): (r: SignupPage)
    ensures r.isSubmitting == page.isSubmitting && r.isSubmitted == page.isSubmitted
    ensures e.TextChange? ==> TextValue(r.form, e.field) == e.value
    ensures e.TextChange? ==> forall g :: g != e.field ==> TextValue(r.form, g) == TextValue(page.form, g)
    ensures e.TextChange? ==> r.form.role == page.form.role && r.form.agreeToTerms == page.form.agreeToTerms
    ensures e.TermsChange? ==> r.form.agreeToTerms == e.checked
    ensures e.TermsChange? ==> forall g :: TextValue(r.form, g) == TextValue(page.form, g)
    ensures e.TermsChange? ==> r.form.role == page.form.role
    ensures r.errors.Keys == page.errors.Keys
    ensures !ShowsError(r.errors, EventName(e))
    ensures forall k :: k in page.errors && k != EventName(e) ==> r.errors[k] == page.errors[k]
  {
    var f := page.form;
    var form :=
      match e
      case TextChange(NameField, v) => f.(name := v)
      case TextChange(EmailField, v) => f.(email := v)
      case TextChange(PasswordField, v) => f.(password := v)
      case TextChange(ConfirmPasswordField, v) => f.(confirmPassword := v)
      case TextChange(InstitutionField, v) => f.(institution := v)
      case TermsChange(c) => f.(agreeToTerms := c);
    page.(form := form, errors := ClearError(page.errors, EventName(e)))
  }

  /** `handleSubmit`: the errors are replaced by a fresh validation, and only a valid
      form starts submitting. */
  function HandleSubmit(page: SignupPage): (r: SignupPage)
    ensures r.form == page.form && r.isSubmitted == page.isSubmitted
    ensures NoErrors(r.errors) <==> SignupIsValid(page.form)
    ensures forall k :: ShowsError(r.errors, k) <==> k in r.errors
    ensures SignupIsValid(page.form) ==> r.isSubmitting
    ensures !SignupIsValid(page.form) ==> r.isSubmitting == page.isSubmitting
  {
    var errors := ValidateSignup(page.form);
    page.(errors := errors, isSubmitting := page.isSubmitting || NoErrors(errors))
  }

  /** Submitting the untouched page flags every required field (but not the two equal,
      empty passwords as a mismatch) and does not start submitting. */
  lemma UntouchedFormIsRefused()
    ensures var r := HandleSubmit(InitialPage);
      && !r.isSubmitting
      && r.errors.Keys == {"name", "email", "password", "institution", "agreeToTerms"}
      && r.errors["email"] == EmailRequired && r.errors["password"] == PasswordRequired
  {
    var errors := ValidateSignup(InitialForm);
    InitialFormErrors();
    assert errors.Keys == SignupKeys - {"confirmPassword"};
    assert HandleSubmit(InitialPage).errors == errors;
  }

  /** Which rules the untouched form fails. */
  lemma InitialFormErrors()
    ensures var errors := ValidateSignup(InitialForm);
      && "name" in errors && "email" in errors && "password" in errors
      && "institution" in errors && "agreeToTerms" in errors && "confirmPassword" !in errors
      && errors["email"] == EmailRequired && errors["password"] == PasswordRequired
  {
    var f := InitialForm;
    assert IsBlank(f.name) && IsBlank(f.email);
    SignupNameAndEmailErrors(f);
    SignupPasswordErrors(f);
    SignupInstitutionAndTermsErrors(f);
  }

  datatype RoleOption = RoleOption(id: string, name: string)

  const RoleOptions := [
    RoleOption("admin", "Administrator"),
    RoleOption("teacher", "Teacher"),
    RoleOption("student", "Student")
  ]

  /** Clicking a role card stores its id. */
  function SelectRole(page: SignupPage, option: RoleOption): (r: SignupPage)
    requires option in RoleOptions
    ensures GetSelectedRole(r.form) == Some(option)
    ensures r.form.(role := page.form.role) == page.form && r.errors == page.errors
  {
    page.(form := page.form.(role := option.id))
  }

  /** `roleOptions.find(role => role.id === formData.role)`. */
  function GetSelectedRole(form: SignupForm): (r: Option<RoleOption>)
    ensures r.Some? <==> form.role in {"admin", "teacher", "student"}
    ensures r.Some? ==> r.value in RoleOptions && r.value.id == form.role
  {
    var r := Find(RoleOptions, (o: RoleOption) => o.id == form.role);
    assert RoleOptions[0].id == "admin" && RoleOptions[1].id == "teacher" && RoleOptions[2].id == "student";
    r
  }
}
