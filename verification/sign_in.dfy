/** The sign-in page: the form's validation, the field error messages, and the
    submit decision: reject an invalid form, let the two built-in accounts in
    directly, or hand the credentials to the authentication service. Angular's
    validators are modelled by their rules (`required` rejects the empty
    string; `minLength` and `email` accept it); the email pattern itself is a
    parameter. */
module SignIn {
  import opened Wrappers
  import opened Text
  import opened Json
  import opened Storage
  import AuthService

  datatype ValidatorError = Required | InvalidEmail | MinLength

  /** The values of the `email` and `password` controls. */
  datatype Form = Form(email: string, password: string)

  /** The two controls the form declares. */
  const Controls: set<string> := {"email", "password"}

  /** `Validators.required` and `Validators.email` on the email control. */
  function EmailErrors(value: string, looksLikeEmail: string -> bool): set<ValidatorError> {
    (if value == "" then {Required} else {})
    + (if value != "" && !looksLikeEmail(value) then {InvalidEmail} else {})
  }

  /** `Validators.required` and `Validators.minLength(8)` on the password control. */
  function PasswordErrors(value: string): set<ValidatorError> {
    (if value == "" then {Required} else {})
    + (if value != "" && |value| < 8 then {MinLength} else {})
  }

  /** `form.get(field)?.errors`: `None` when there is no such control. */
  function ControlErrors(form: Form, field: string, looksLikeEmail: string -> bool): Option<set<ValidatorError>> {
    if field == "email" then Some(EmailErrors(form.email, looksLikeEmail))
    else if field == "password" then Some(PasswordErrors(form.password))
    else None
  }

  /** `form.invalid`. */
  predicate FormInvalid(form: Form, looksLikeEmail: string -> bool) {
    EmailErrors(form.email, looksLikeEmail) != {} || PasswordErrors(form.password) != {}
  }

  /** `getErrorMessage`: the required message (naming the field with a capital
      first letter) before the email message before the length message, and
      the empty string when the control is valid or missing. */
  function GetErrorMessage(form: Form, field: string, looksLikeEmail: string -> bool): (m: string)
    ensures m == "" <==>
      ControlErrors(form, field, looksLikeEmail).None? || ControlErrors(form, field, looksLikeEmail).value == {}
    ensures ControlErrors(form, field, looksLikeEmail).Some?
            && Required in ControlErrors(form, field, looksLikeEmail).value
            ==> m == Capitalize(field) + " is required"
    ensures ControlErrors(form, field, looksLikeEmail).Some?
            && Required !in ControlErrors(form, field, looksLikeEmail).value
            && InvalidEmail in ControlErrors(form, field, looksLikeEmail).value
            ==> m == "Please enter a valid email"
  {
    match ControlErrors(form, field, looksLikeEmail)
    case None => ""
    case Some(errors) =>
      if Required in errors then Capitalize(field) + " is required"
      else if InvalidEmail in errors then "Please enter a valid email"
      else if MinLength in errors then "Password must be at least 8 characters"
      else ""
  }

  /** The messages the page shows for the two controls. */
  lemma FieldMessages(form: Form, looksLikeEmail: string -> bool)
    ensures form.email == "" ==> GetErrorMessage(form, "email", looksLikeEmail) == "Email is required"
    ensures form.password == "" ==> GetErrorMessage(form, "password", looksLikeEmail) == "Password is required"
    ensures 0 < |form.password| < 8 ==>
      GetErrorMessage(form, "password", looksLikeEmail) == "Password must be at least 8 characters"
    ensures |form.password| >= 8 ==> GetErrorMessage(form, "password", looksLikeEmail) == ""
  {
    CapitalizedNames();
  }

  lemma CapitalizedNames()
    ensures Capitalize("email") + " is required" == "Email is required"
    ensures Capitalize("password") + " is required" == "Password is required"
  {
    assert UpperChar('e') == 'E';
    assert "email"[1..] == "mail";
    assert Capitalize("email") == ['E'] + "mail";
    assert UpperChar('p') == 'P';
    assert "password"[1..] == "assword";
    assert Capitalize("password") == ['P'] + "assword";
  }

  const UserAccountEmail := "sirineidoudi@mail.com"
  const UserAccountPassword := "12345678"
  const UserAccountToken := "user_token_12345"
  const AdminAccountEmail := "admin@gmail.com"
  const AdminAccountPassword := "azertyui"
  const AdminAccountToken := "admin_token_67890"

  const InvalidFormMessage := "Please fill in all fields correctly"
  const LoginFailedMessage := "Login failed. Please try again."

  /** The page's `loading` and `errorMessage` signals. */
  datatype Page = Page(loading: bool, errorMessage: Option<string>)

  /** What the observable returned by `login` delivered to the page: a
      response, or an error whose `message` may be missing or empty. */
  datatype LoginOutcome = LoggedIn | LoginError(message: Option<string>)

  /** The effect of one submission: the page signals, storage, the credentials
      passed to `login` if it was called, and the navigations issued. */
  datatype Submission = Submission(page: Page, store: Store, loginCall: Option<Record>, navigation: seq<string>)

  /** The `user` entry a built-in account writes. */
  function AccountUser(email: string, firstName: string, role: string): Record {
    map["email" := Str(email), "firstName" := Str(firstName), "role" := Str(role)]
  }

  /** `onSubmit`. For the delegated case, `outcome` is what `login` delivered;
      the storage changes `login` itself makes belong to the service. */
  function OnSubmit(page: Page, form: Form, store: Store, looksLikeEmail: string -> bool,
                    codec: Codec, outcome: LoginOutcome): (s: Submission)
    ensures |s.navigation| <= 1
    ensures FormInvalid(form, looksLikeEmail) ==>
      s == Submission(page.(errorMessage := Some(InvalidFormMessage)), store, None, [])
    ensures !FormInvalid(form, looksLikeEmail) && form.email == UserAccountEmail
            && form.password == UserAccountPassword ==>
      && s.loginCall.None? && s.navigation == ["/dashboard/user"] && s.page == Page(false, None)
      && GetItem(s.store, AuthService.TokenKey) == Some(UserAccountToken)
      && GetItem(s.store, AuthService.UserKey) == Some(codec.stringify(AccountUser(form.email, "User", "user")))
    ensures !FormInvalid(form, looksLikeEmail) && form.email == AdminAccountEmail
            && form.password == AdminAccountPassword ==>
      && s.loginCall.None? && s.navigation == ["/dashboard/admin"] && s.page == Page(false, None)
      && GetItem(s.store, AuthService.TokenKey) == Some(AdminAccountToken)
      && GetItem(s.store, AuthService.UserKey) == Some(codec.stringify(AccountUser(form.email, "Admin", "admin")))
    ensures s.loginCall.Some? <==>
      !FormInvalid(form, looksLikeEmail)
      && !(form.email == UserAccountEmail && form.password == UserAccountPassword)
      && !(form.email == AdminAccountEmail && form.password == AdminAccountPassword)
    ensures s.loginCall.Some? ==>
      && s.loginCall.value == map["email" := Str(form.email), "password" := Str(form.password)]
      && s.store == store && !s.page.loading
      && (outcome.LoggedIn? ==> s.navigation == ["/dashboard"] && s.page.errorMessage == None)
      && (outcome.LoginError? ==> s.navigation == [] && s.page.errorMessage.Some? && s.page.errorMessage.value != "")
  {
    if FormInvalid(form, looksLikeEmail) then
      Submission(page.(errorMessage := Some(InvalidFormMessage)), store, None, [])
    else if form.email == UserAccountEmail && form.password == UserAccountPassword then
      var written := store[AuthService.TokenKey := UserAccountToken]
                          [AuthService.UserKey := codec.stringify(AccountUser(form.email, "User", "user"))];
      Submission(Page(false, None), written, None, ["/dashboard/user"])
    else if form.email == AdminAccountEmail && form.password == AdminAccountPassword then
      var written := store[AuthService.TokenKey := AdminAccountToken]
                          [AuthService.UserKey := codec.stringify(AccountUser(form.email, "Admin", "admin"))];
      Submission(Page(false, None), written, None, ["/dashboard/admin"])
    else
      var credentials := map["email" := Str(form.email), "password" := Str(form.password)];
      match outcome
      case LoggedIn => Submission(Page(false, None), store, Some(credentials), ["/dashboard"])
      case LoginError(m) =>
        var message := if m.Some? && m.value != "" then m.value else LoginFailedMessage;
        Submission(Page(false, Some(message)), store, Some(credentials), [])
  }

  /** A login error shows the error's own message when it has one, and the
      default text otherwise. */
  lemma LoginErrorMessage(page: Page, form: Form, store: Store, looksLikeEmail: string -> bool,
                          codec: Codec, m: Option<string>)
    requires OnSubmit(page, form, store, looksLikeEmail, codec, LoginError(m)).loginCall.Some?
    ensures
      var s := OnSubmit(page, form, store, looksLikeEmail, codec, LoginError(m));
      s.page.errorMessage == Some(if m.Some? && m.value != "" then m.value else LoginFailedMessage)
  {
  }

  /** Both built-in passwords are eight characters long, so they pass the
      length rule; the built-in accounts are reached whenever the email pattern
      accepts their addresses. */
  lemma BuiltInAccountsPassValidation(looksLikeEmail: string -> bool)
    requires looksLikeEmail(UserAccountEmail) && looksLikeEmail(AdminAccountEmail)
    ensures !FormInvalid(Form(UserAccountEmail, UserAccountPassword), looksLikeEmail)
    ensures !FormInvalid(Form(AdminAccountEmail, AdminAccountPassword), looksLikeEmail)
  {
  }
}
