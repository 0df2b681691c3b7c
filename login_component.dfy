/** The login form: its field rules and the submit handler. */
module Login {
  import opened Wrappers
  import opened Forms
  import Routing
  import Auth

  /** The values of the two controls. */
  datatype LoginForm = LoginForm(email: string, password: string)

  const EmailRules: seq<Rule> := [Required, Email]
  const PasswordRules: seq<Rule> := [Required, MinLength(6)]

  /** `loginForm.valid`: both controls pass their validators. */
  predicate FormValid(form: LoginForm, isEmail: string -> bool)
  {
    ControlValid(EmailRules, form.email, isEmail) && ControlValid(PasswordRules, form.password, isEmail)
  }

  /** The form is valid exactly when the address is non-empty and well-formed and the
      password has at least 6 UTF-16 code units; each failing control reports its own error. */
  lemma FormValidIff(form: LoginForm, isEmail: string -> bool)
    ensures FormValid(form, isEmail) <==> |form.email| > 0 && isEmail(form.email) && JsLength(form.password) >= 6
    ensures |form.email| > 0 && !isEmail(form.email) ==> EmailError in ControlErrors(EmailRules, form.email, isEmail)
    ensures 0 < JsLength(form.password) < 6 ==>
      MinLengthError(6, JsLength(form.password)) in ControlErrors(PasswordRules, form.password, isEmail)
  {
    assert Check(EmailRules[0], form.email, isEmail) == (if |form.email| == 0 then Some(RequiredError) else None);
    assert Check(EmailRules[1], form.email, isEmail) ==
      (if |form.email| == 0 || isEmail(form.email) then None else Some(EmailError));
    assert Check(PasswordRules[0], form.password, isEmail) == (if |form.password| == 0 then Some(RequiredError) else None);
    assert Check(PasswordRules[1], form.password, isEmail) ==
      (if |form.password| == 0 || JsLength(form.password) >= 6 then None
       else Some(MinLengthError(6, JsLength(form.password))));
  }

  class LoginComponent {
    const auth: Auth.AuthService
    /** The address pattern of `Validators.email`. */
    const isEmail: string -> bool
    var form: LoginForm
    var isLoading: bool
    var errorMessage: string
    /** Set by `markAllAsTouched`. */
    var touched: bool

    constructor (auth: Auth.AuthService, isEmail: string -> bool)
      ensures this.auth == auth && this.isEmail == isEmail
      ensures form == LoginForm("", "") && !FormValid(form, isEmail)
      ensures errorMessage == "" && !isLoading && !touched
    {
      this.auth := auth;
      this.isEmail := isEmail;
      form := LoginForm("", "");
      isLoading := false;
      errorMessage := "";
      touched := false;
      FormValidIff(LoginForm("", ""), isEmail);
    }

    /** Submit: an invalid form only marks its controls touched; a valid one calls `login`
        with exactly the form's address and password. */
    method OnSubmit()
      modifies this, auth, auth.router
      ensures form == old(form)
      ensures auth.usersBlob == old(auth.usersBlob)
      ensures !FormValid(old(form), isEmail) ==>
        && touched
        && isLoading == old(isLoading) && errorMessage == old(errorMessage)
        && auth.storedSession == old(auth.storedSession) && auth.currentUser == old(auth.currentUser)
        && auth.router.log == old(auth.router.log)
      ensures FormValid(old(form), isEmail) ==>
        && touched == old(touched)
        && !isLoading
        && match Auth.LoginStep(old(auth.usersBlob), old(form).email, old(form).password)
          case Success(session) =>
            && errorMessage == ""
            && auth.storedSession == Some(session) && auth.currentUser == Some(session)
            && auth.router.log == old(auth.router.log) + [Routing.DashboardRoute]
          case Failure(message) =>
            && errorMessage == DisplayMessage(message, Auth.InvalidCredentials)
            && auth.storedSession == old(auth.storedSession) && auth.currentUser == old(auth.currentUser)
            && auth.router.log == old(auth.router.log)
    {
      if FormValid(form, isEmail) {
        isLoading := true;
        errorMessage := "";
        var email, password := form.email, form.password;
        var r := auth.Login(email, password);
        match r
        case Success(_) =>
          isLoading := false;
        case Failure(message) =>
          isLoading := false;
          errorMessage := DisplayMessage(message, Auth.InvalidCredentials);
      } else {
        touched := true;
      }
    }
  }
}
