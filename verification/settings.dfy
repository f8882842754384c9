/** The settings page: profile and password forms sharing one error map, their
    validators and change handlers, the notification switches, and the password form
    reset after a successful submit. */
module Settings {
  import opened Wrappers
  import opened Text
  import opened FormRules

  datatype ProfileForm = ProfileForm(
    name: string, email: string, role: string, institution: string, bio: string, phone: string)

  datatype PasswordForm = PasswordForm(currentPassword: string, newPassword: string, confirmPassword: string)

  datatype Notifications = Notifications(email: bool, push: bool, sms: bool)

  const EmptyPasswords := PasswordForm("", "", "")

  const CurrentPasswordRequired := "Current password is required"
  const NewPasswordRequired := "New password is required"
  const PasswordTooShort := "Password must be at least 8 characters"
  const PasswordsDiffer := "Passwords do not match"
  const MinPasswordLength := 8
  const ProfileSaved := "Profile updated successfully!"
  const PasswordChanged := "Password changed successfully!"

  const ProfileKeys := {"name", "email"}
  const PasswordKeys := {"currentPassword", "newPassword", "confirmPassword"}

  function ProfileRule(p: ProfileForm, key: string): (r: Option<string>)
    ensures r.Some? ==> r.value != ""
  {
    if key == "name" then NameRule(p.name)
    else if key == "email" then EmailRule(p.email)
    else None
  }

  /** `validateProfileForm`'s error map. */
  function ValidateProfile(p: ProfileForm): (errors: Errors)
    ensures errors.Keys <= ProfileKeys
    ensures forall k :: k in errors ==> errors[k] != ""
    ensures "name" in errors <==> IsBlank(p.name)
    ensures "name" in errors ==> errors["name"] == NameRequired
    ensures ("email" in errors && errors["email"] == EmailRequired) <==> IsBlank(p.email)
    ensures ("email" in errors && errors["email"] == EmailInvalid) <==>
              !IsBlank(p.email) && !MatchesEmailRegex(p.email)
    ensures "email" in errors ==> errors["email"] == EmailRequired || errors["email"] == EmailInvalid
    ensures NoErrors(errors) <==> forall k :: k in ProfileKeys ==> ProfileRule(p, k).None?
  {
    var rule := k => ProfileRule(p, k);
    NoErrorsIffAllPass(ProfileKeys, rule);
    CollectErrors(ProfileKeys, rule)
  }

  /** `validateProfileForm()`'s verdict. */
  function ProfileIsValid(p: ProfileForm): (ok: bool)
    ensures ok ==> !IsBlank(p.name)
    ensures ok ==> !IsBlank(p.email) && MatchesEmailRegex(p.email)
    ensures !IsBlank(p.name) && !IsBlank(p.email) && MatchesEmailRegex(p.email) ==> ok
  {
    ProfileRulesPass(p);
    NoErrors(ValidateProfile(p))
  }

  lemma ProfileRulesPass(p: ProfileForm)
    ensures (forall k :: k in ProfileKeys ==> ProfileRule(p, k).None?) <==>
      !IsBlank(p.name) && !IsBlank(p.email) && MatchesEmailRegex(p.email)
  {
    assert ProfileRule(p, "name") == NameRule(p.name);
    assert ProfileRule(p, "email") == EmailRule(p.email);
    if forall k :: k in ProfileKeys ==> ProfileRule(p, k).None? {
      assert "name" in ProfileKeys && "email" in ProfileKeys;
    } else {
      var k :| k in ProfileKeys && ProfileRule(p, k).Some?;
      assert k == "name" || k == "email";
    }
  }

  function PasswordRule(p: PasswordForm, key: string): (r: Option<string>)
    ensures r.Some? ==> r.value != ""
  {
    if key == "currentPassword" then
      (if p.currentPassword == "" then Some(CurrentPasswordRequired) else None)
    else if key == "newPassword" then
      (if p.newPassword == "" then Some(NewPasswordRequired)
       else if |p.newPassword| < MinPasswordLength then Some(PasswordTooShort)
       else None)
    else if key == "confirmPassword" then
      (if p.newPassword != p.confirmPassword then Some(PasswordsDiffer) else None)
    else None
  }

  /** `validatePasswordForm`'s error map. */
  function ValidatePasswords(p: PasswordForm): (errors: Errors)
    ensures errors.Keys <= PasswordKeys
    ensures forall k :: k in errors ==> errors[k] != ""
    ensures "currentPassword" in errors <==> |p.currentPassword| == 0
    ensures "currentPassword" in errors ==> errors["currentPassword"] == CurrentPasswordRequired
    ensures ("newPassword" in errors && errors["newPassword"] == NewPasswordRequired) <==> |p.newPassword| == 0
    ensures ("newPassword" in errors && errors["newPassword"] == PasswordTooShort) <==> 0 < |p.newPassword| < 8
    ensures "newPassword" in errors ==>
              errors["newPassword"] == NewPasswordRequired || errors["newPassword"] == PasswordTooShort
    ensures "confirmPassword" in errors <==> p.newPassword != p.confirmPassword
    ensures "confirmPassword" in errors ==> errors["confirmPassword"] == PasswordsDiffer
  {
    CollectErrors(PasswordKeys, k => PasswordRule(p, k))
  }

  /** `validatePasswordForm()`'s verdict. */
  function PasswordsAreValid(p: PasswordForm): (ok: bool)
    ensures ok <==>
      |p.currentPassword| > 0 && |p.newPassword| >= MinPasswordLength && p.newPassword == p.confirmPassword
  {
    var errors := ValidatePasswords(p);
    assert !NoErrors(errors) <==> exists k :: k in errors by {
      if !NoErrors(errors) {
        var k :| k in errors;
      }
    }
    NoErrors(errors)
  }

  datatype SettingsPage = SettingsPage(
    profile: ProfileForm, passwords: PasswordForm, notifications: Notifications,
    errors: Errors, isLoading: bool, successMessage: string)

  /** The inputs wired to `handleProfileChange`, by their `name` attribute. */
  datatype ProfileField = NameField | EmailField | RoleField | InstitutionField | BioField | PhoneField

  /** The inputs wired to `handlePasswordChange`. */
  datatype PasswordField = CurrentPasswordField | NewPasswordField | ConfirmPasswordField

  datatype Channel = EmailChannel | PushChannel | SmsChannel

  function ProfileFieldName(f: ProfileField): string {
    match f
    case NameField => "name"
    case EmailField => "email"
    case RoleField => "role"
    case InstitutionField => "institution"
    case BioField => "bio"
    case PhoneField => "phone"
  }

  function PasswordFieldName(f: PasswordField): string {
    match f
    case CurrentPasswordField => "currentPassword"
    case NewPasswordField => "newPassword"
    case ConfirmPasswordField => "confirmPassword"
  }

  function ProfileValue(p: ProfileForm, f: ProfileField): string {
    match f
    case NameField => p.name
    case EmailField => p.email
    case RoleField => p.role
    case InstitutionField => p.institution
    case BioField => p.bio
    case PhoneField => p.phone
  }

  function PasswordValue(p: PasswordForm, f: PasswordField): string {
    match f
    case CurrentPasswordField => p.currentPassword
    case NewPasswordField => p.newPassword
    case ConfirmPasswordField => p.confirmPassword
  }

  function Enabled(n: Notifications, c: Channel): bool {
    match c
    case EmailChannel => n.email
    case PushChannel => n.push
    case SmsChannel => n.sms
  }

  /** `handleProfileChange`: one profile field takes the new value and only its error
      is cleared; the password form and notifications are untouched. */
  function HandleProfileChange(page: SettingsPage, field: ProfileField, value: string): (r: SettingsPage)
    ensures ProfileValue(r.profile, field) == value
    ensures forall g :: g != field ==> ProfileValue(r.profile, g) == ProfileValue(page.profile, g)
    ensures r.passwords == page.passwords && r.notifications == page.notifications
    ensures r.isLoading == page.isLoading && r.successMessage == page.successMessage
    ensures r.errors.Keys == page.errors.Keys
    ensures !ShowsError(r.errors, ProfileFieldName(field))
    ensures forall k :: k in page.errors && k != ProfileFieldName(field) ==> r.errors[k] == page.errors[k]
  {
    var p := page.profile;
    var profile :=
      match field
      case NameField => p.(name := value)
      case EmailField => p.(email := value)
      case RoleField => p.(role := value)
      case InstitutionField => p.(institution := value)
      case BioField => p.(bio := value)
      case PhoneField => p.(phone := value);
    page.(profile := profile, errors := ClearError(page.errors, ProfileFieldName(field)))
  }

  /** `handlePasswordChange`: the same discipline for the password form. */
  function HandlePasswordChange(page: SettingsPage, field: PasswordField, value: string): (r: SettingsPage)
    ensures PasswordValue(r.passwords, field) == value
    ensures forall g :: g != field ==> PasswordValue(r.passwords, g) == PasswordValue(page.passwords, g)
    ensures r.profile == page.profile && r.notifications == page.notifications
    ensures r.isLoading == page.isLoading && r.successMessage == page.successMessage
    ensures r.errors.Keys == page.errors.Keys
    ensures !ShowsError(r.errors, PasswordFieldName(field))
    ensures forall k :: k in page.errors && k != PasswordFieldName(field) ==> r.errors[k] == page.errors[k]
  {
    var p := page.passwords;
    var passwords :=
      match field
      case CurrentPasswordField => p.(currentPassword := value)
      case NewPasswordField => p.(newPassword := value)
      case ConfirmPasswordField => p.(confirmPassword := value);
    page.(passwords := passwords, errors := ClearError(page.errors, PasswordFieldName(field)))
  }

  /** `handleNotificationChange(type)`: flips one channel and nothing else. */
  function HandleNotificationChange(page: SettingsPage, c: Channel): (r: SettingsPage)
    ensures Enabled(r.notifications, c) == !Enabled(page.notifications, c)
    ensures forall d :: d != c ==> Enabled(r.notifications, d) == Enabled(page.notifications, d)
    ensures r.(notifications := page.notifications) == page
  {
    var n := page.notifications;
    var flipped :=
      match c
      case EmailChannel => n.(email := !n.email)
      case PushChannel => n.(push := !n.push)
      case SmsChannel => n.(sms := !n.sms);
    page.(notifications := flipped)
  }

  /** Flipping the same channel twice restores the page. */
  lemma NotificationToggleInvolution(page: SettingsPage, c: Channel)
    ensures HandleNotificationChange(HandleNotificationChange(page, c), c) == page
  {
    var once := HandleNotificationChange(page, c);
    var twice := HandleNotificationChange(once, c);
    assert forall d :: Enabled(twice.notifications, d) == Enabled(page.notifications, d);
    assert Enabled(twice.notifications, EmailChannel) == Enabled(page.notifications, EmailChannel);
    assert Enabled(twice.notifications, PushChannel) == Enabled(page.notifications, PushChannel);
    assert Enabled(twice.notifications, SmsChannel) == Enabled(page.notifications, SmsChannel);
  }

  /** The synchronous part of `handleProfileSubmit`: the errors are replaced by a fresh
      validation, and only a valid profile starts the simulated request. */
  function SubmitProfile(page: SettingsPage): (r: SettingsPage)
    ensures r.profile == page.profile && r.passwords == page.passwords && r.notifications == page.notifications
    ensures r.successMessage == page.successMessage
    ensures NoErrors(r.errors) <==> ProfileIsValid(page.profile)
    ensures r.isLoading == (ProfileIsValid(page.profile) || page.isLoading)
  {
    var errors := ValidateProfile(page.profile);
    if NoErrors(errors) then page.(errors := errors, isLoading := true)
    else page.(errors := errors)
  }

  /** The profile request's timer callback, one second later: loading ends and the
      success message shows; nothing else changes. */
  function FinishProfileSave(page: SettingsPage): (r: SettingsPage)
    ensures !r.isLoading && r.successMessage == ProfileSaved
    ensures r.(isLoading := page.isLoading, successMessage := page.successMessage) == page
  {
    page.(isLoading := false, successMessage := ProfileSaved)
  }

  /** The synchronous part of `handlePasswordSubmit`: the same validation discipline;
      the typed passwords are kept until the request completes. */
  function SubmitPasswords(page: SettingsPage): (r: SettingsPage)
    ensures r.profile == page.profile && r.passwords == page.passwords && r.notifications == page.notifications
    ensures r.successMessage == page.successMessage
    ensures NoErrors(r.errors) <==> PasswordsAreValid(page.passwords)
    ensures r.isLoading == (PasswordsAreValid(page.passwords) || page.isLoading)
  {
    var errors := ValidatePasswords(page.passwords);
    if NoErrors(errors) then page.(errors := errors, isLoading := true)
    else page.(errors := errors)
  }

  /** The password request's timer callback: loading ends, the success message shows and
      all three password fields are emptied, whatever they hold by then. */
  function FinishPasswordChange(page: SettingsPage): (r: SettingsPage)
    ensures !r.isLoading && r.successMessage == PasswordChanged
    ensures r.passwords.currentPassword == "" && r.passwords.newPassword == "" && r.passwords.confirmPassword == ""
    ensures r.(isLoading := page.isLoading, successMessage := page.successMessage, passwords := page.passwords) == page
  {
    page.(isLoading := false, successMessage := PasswordChanged, passwords := EmptyPasswords)
  }

  /** A valid profile submit followed by its callback ends with no errors, loading off,
      the saved message and the profile as submitted. */
  lemma ProfileSubmitOutcome(page: SettingsPage)
    requires ProfileIsValid(page.profile)
    ensures var r := FinishProfileSave(SubmitProfile(page));
      && NoErrors(r.errors) && !r.isLoading && r.successMessage == ProfileSaved
      && r.profile == page.profile && r.passwords == page.passwords
  {
  }

  /** While the password request is pending the page shows loading, and an edit typed in
      that second is wiped by the callback's reset. */
  lemma PendingPasswordEditIsWiped(page: SettingsPage, field: PasswordField, value: string)
    requires PasswordsAreValid(page.passwords)
    ensures SubmitPasswords(page).isLoading
    ensures var r := FinishPasswordChange(HandlePasswordChange(SubmitPasswords(page), field, value));
      && r.passwords == EmptyPasswords && !r.isLoading && r.successMessage == PasswordChanged
      && r.profile == page.profile
  {
  }
}
