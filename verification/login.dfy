/** The login page: credential lookup against its table of users and the
    loading/error flags of `handleSubmit`. */
module Login {
  import opened Wrappers
  import opened Seqs

  datatype LoginUser = LoginUser(id: int, email: string, password: string, role: string, name: string)

  const Users := [
    LoginUser(1, "admin@school.edu", "admin123", "Admin", "Admin User"),
    LoginUser(2, "teacher@school.edu", "teacher123", "Teacher", "Jane Smith"),
    LoginUser(3, "student@school.edu", "student123", "Student", "John Doe")
  ]

  const InvalidCredentials := "Invalid email or password"

  datatype LoginForm = LoginForm(email: string, password: string, rememberMe: bool)

  /** `submitted` is the form the pending `setTimeout` callback closed over when the
      last submit ran; `welcome` is the text of the success alert, once one has been shown. */
  datatype LoginPage = LoginPage(form: LoginForm, submitted: LoginForm, isLoading: bool, error: string, welcome: Option<string>)

  const EmptyForm := LoginForm("", "", false)

  const InitialPage := LoginPage(EmptyForm, EmptyForm, false, "", None)

  /** An input event: a text field's new value, or the checkbox's `checked`. */
  datatype LoginChange = EmailChange(value: string) | PasswordChange(value: string) | RememberMeChange(checked: bool)

  /** `handleChange`: the event's field takes its value; the inputs stay editable while a
      submit is pending, and nothing but the form changes. */
  function HandleChange(page: LoginPage, e: LoginChange): (r: LoginPage)
    ensures r.submitted == page.submitted && r.isLoading == page.isLoading
    ensures r.error == page.error && r.welcome == page.welcome
    ensures e.EmailChange? ==> r.form == page.form.(email := e.value)
    ensures e.PasswordChange? ==> r.form.password == e.value
    ensures e.PasswordChange? ==> r.form.email == page.form.email && r.form.rememberMe == page.form.rememberMe
    ensures e.RememberMeChange? ==> r.form.rememberMe == e.checked
    ensures e.RememberMeChange? ==> r.form.email == page.form.email && r.form.password == page.form.password
  {
    var f := page.form;
    var form :=
      match e
      case EmailChange(v) => f.(email := v)
      case PasswordChange(v) => f.(password := v)
      case RememberMeChange(c) => f.(rememberMe := c);
    page.(form := form)
  }

  predicate Matches(u: LoginUser, email: string, password: string) {
    u.email == email && u.password == password
  }

  /** `dummyUsers.find(u => u.email === email && u.password === password)`. */
  function FindUser(users: seq<LoginUser>, email: string, password: string): (r: Option<LoginUser>)
    ensures r.Some? <==> exists u :: u in users && u.email == email && u.password == password
    ensures r.Some? ==> r.value in users && r.value.email == email && r.value.password == password
    ensures r.Some? ==>
      exists i :: 0 <= i < |users| && users[i] == r.value && forall j :: 0 <= j < i ==> !Matches(users[j], email, password)
  {
    var r := Find(users, (u: LoginUser) => Matches(u, email, password));
    assert r.Some? ==> Matches(r.value, email, password);
    r
  }

  /** The text of the success alert. */
  function WelcomeText(u: LoginUser): string {
    "Welcome " + u.name + "! (" + u.role + ")"
  }

  /** The synchronous start of `handleSubmit`: loading on, error cleared, and the
      current form captured by the callback that is scheduled. */
  function BeginSubmit(page: LoginPage): (r: LoginPage)
    ensures r.isLoading && r.error == ""
    ensures r.submitted == page.form
    ensures r.form == page.form && r.welcome == page.welcome
  {
    page.(submitted := page.form, isLoading := true, error := "")
  }

  /** The delayed part of `handleSubmit`: look up the credentials the callback captured
      at submit time (not what the inputs hold now), then either greet the user or show
      the fixed error; loading ends either way. */
  function FinishSubmit(page: LoginPage, users: seq<LoginUser>): (r: LoginPage)
    ensures !r.isLoading && r.form == page.form && r.submitted == page.submitted
    ensures (exists u :: u in users && u.email == page.submitted.email && u.password == page.submitted.password) ==>
              r.error == page.error && r.welcome.Some?
    ensures (forall u :: u in users ==> !(u.email == page.submitted.email && u.password == page.submitted.password)) ==>
              r.error == InvalidCredentials && r.welcome == page.welcome
  {
    match FindUser(users, page.submitted.email, page.submitted.password)
    case Some(u) =>
      page.(isLoading := false, welcome := Some(WelcomeText(u)))
    case None => page.(isLoading := false, error := InvalidCredentials)
  }

  /** The welcome names the FIRST user whose email and password both match. */
  lemma WelcomeNamesFirstMatch(page: LoginPage, users: seq<LoginUser>, i: nat)
    requires i < |users| && Matches(users[i], page.submitted.email, page.submitted.password)
    requires forall j :: 0 <= j < i ==> !Matches(users[j], page.submitted.email, page.submitted.password)
    ensures FinishSubmit(page, users).welcome == Some(WelcomeText(users[i]))
  {
    var found := FindUser(users, page.submitted.email, page.submitted.password);
    assert found.Some? by {
      assert users[i] in users;
    }
    var k :| 0 <= k < |users| && users[k] == found.value && forall j :: 0 <= j < k ==> !Matches(users[j], page.submitted.email, page.submitted.password);
    assert Matches(users[k], page.submitted.email, page.submitted.password);
    assert k >= i;
    assert k <= i;
  }

  /** A whole submit: it succeeds exactly for a user whose email and password both match,
      a failure leaves exactly the fixed error, and loading is off afterwards. */
  lemma SubmitOutcome(page: LoginPage, users: seq<LoginUser>)
    ensures var r := FinishSubmit(BeginSubmit(page), users);
      && !r.isLoading
      && (r.error == "" <==> exists u :: u in users && u.email == page.form.email && u.password == page.form.password)
      && (r.error != "" ==> r.error == InvalidCredentials)
  {
  }

  /** Typing while the request is pending changes the inputs but not the outcome: the
      callback judges the form as it was submitted. */
  lemma EditWhilePendingKeepsOutcome(page: LoginPage, e: LoginChange, users: seq<LoginUser>)
    ensures var pending := BeginSubmit(page);
      var edited := FinishSubmit(HandleChange(pending, e), users);
      var untouched := FinishSubmit(pending, users);
      && edited.error == untouched.error && edited.welcome == untouched.welcome
      && edited.form == HandleChange(pending, e).form
  {
  }

  /** The admin account logs in with its own password and not with the teacher's, the
      welcome names it (even when the password field is cleared while the request is
      pending), and the untouched form is refused. */
  lemma BuiltInAccounts()
    ensures FindUser(Users, "admin@school.edu", "admin123") == Some(Users[0])
    ensures FindUser(Users, "admin@school.edu", "teacher123").None?
    ensures FinishSubmit(BeginSubmit(InitialPage.(form := LoginForm("admin@school.edu", "admin123", false))), Users).welcome
              == Some("Welcome Admin User! (Admin)")
    ensures FinishSubmit(BeginSubmit(InitialPage), Users).error == InvalidCredentials
    ensures FinishSubmit(HandleChange(BeginSubmit(InitialPage.(form := LoginForm("admin@school.edu", "admin123", false))),
                                      PasswordChange("")), Users).welcome
              == Some("Welcome Admin User! (Admin)")
  {
    var p := (u: LoginUser) => Matches(u, "admin@school.edu", "admin123");
    assert p(Users[0]);
    var q := (u: LoginUser) => Matches(u, "admin@school.edu", "teacher123");
    assert !q(Users[0]) && !q(Users[1]) && !q(Users[2]);
    assert WelcomeText(Users[0]) == "Welcome Admin User! (Admin)";
    var e := (u: LoginUser) => Matches(u, "", "");
    assert !e(Users[0]) && !e(Users[1]) && !e(Users[2]);
  }
}
