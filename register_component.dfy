/** The registration form: its field rules, the password-match rule and the submit handler. */
module Register {
  import opened Wrappers
  import opened Routing
  import opened Forms
  import Auth

  /** The values of the four controls. */
  datatype RegisterForm = RegisterForm(fullName: string, email: string, password: string, confirmPassword: string)

  /** The error the form-level validator reports (`{mismatch: true}`). */
  datatype FormError = Mismatch

  const FullNameRules: seq<Rule> := [Required, MinLength(3)]
  const EmailRules: seq<Rule> := [Required, Email]
  const PasswordRules: seq<Rule> := [Required, MinLength(6)]
  const ConfirmPasswordRules: seq<Rule> := [Required]

  /** The form-level validator: no error exactly when the two passwords are equal. */
  function PasswordMatchValidator(form: RegisterForm): (err: Option<FormError>)
    ensures err.None? <==> form.password == form.confirmPassword
  {
    if form.password == form.confirmPassword then None else Some(Mismatch)
  }

  /** `registerForm.valid`: every control passes its validators and the form-level one passes. */
  predicate FormValid(form: RegisterForm, isEmail: string -> bool)
  {
    && ControlValid(FullNameRules, form.fullName, isEmail)
    && ControlValid(EmailRules, form.email, isEmail)
    && ControlValid(PasswordRules, form.password, isEmail)
    && ControlValid(ConfirmPasswordRules, form.confirmPassword, isEmail)
    && PasswordMatchValidator(form).None?
  }

  /** `registerForm.value`, the argument of `register`. */
  function Submitted(form: RegisterForm): Auth.RegisterData
  {
    Auth.RegisterData(form.fullName, form.email, form.password, form.confirmPassword)
  }

  lemma FullNameRule(name: string, isEmail: string -> bool)
    ensures ControlValid(FullNameRules, name, isEmail) <==> JsLength(name) >= 3
    ensures |name| == 0 ==> RequiredError in ControlErrors(FullNameRules, name, isEmail)
    ensures 0 < JsLength(name) < 3 ==> MinLengthError(3, JsLength(name)) in ControlErrors(FullNameRules, name, isEmail)
  {
  }

  lemma EmailRule(email: string, isEmail: string -> bool)
    ensures ControlValid(EmailRules, email, isEmail) <==> |email| > 0 && isEmail(email)
    ensures |email| == 0 ==> RequiredError in ControlErrors(EmailRules, email, isEmail)
    ensures |email| > 0 && !isEmail(email) ==> EmailError in ControlErrors(EmailRules, email, isEmail)
  {
    assert Check(EmailRules[0], email, isEmail) == (if |email| == 0 then Some(RequiredError) else None);
    assert Check(EmailRules[1], email, isEmail) ==
      (if |email| == 0 || isEmail(email) then None else Some(EmailError));
  }

  lemma PasswordRule(password: string, isEmail: string -> bool)
    ensures ControlValid(PasswordRules, password, isEmail) <==> JsLength(password) >= 6
    ensures |password| == 0 ==> RequiredError in ControlErrors(PasswordRules, password, isEmail)
    ensures 0 < JsLength(password) < 6 ==>
      MinLengthError(6, JsLength(password)) in ControlErrors(PasswordRules, password, isEmail)
  {
  }

  lemma ConfirmPasswordRule(confirm: string, isEmail: string -> bool)
    ensures ControlValid(ConfirmPasswordRules, confirm, isEmail) <==> |confirm| > 0
  {
  }

  /** The form is valid exactly when the name has at least 3 UTF-16 code units, the
      address is non-empty and well-formed, the password has at least 6 code units and
      the confirmation equals it. */
  lemma FormValidIff(form: RegisterForm, isEmail: string -> bool)
    ensures FormValid(form, isEmail) <==>
      && JsLength(form.fullName) >= 3
      && |form.email| > 0 && isEmail(form.email)
      && JsLength(form.password) >= 6
      && form.password == form.confirmPassword
  {
    FullNameRule(form.fullName, isEmail);
    EmailRule(form.email, isEmail);
    PasswordRule(form.password, isEmail);
    ConfirmPasswordRule(form.confirmPassword, isEmail);
  }

  /** An emoji followed by one letter is three code units long, so it is a valid name. */
  lemma AstralCharacterCountsTwice(isEmail: string -> bool)
    ensures JsLength("\U{1F600}a") == 3
    ensures ControlValid(FullNameRules, "\U{1F600}a", isEmail)
  {
    assert "\U{1F600}a"[1..] == "a";
    FullNameRule("\U{1F600}a", isEmail);
  }

  class RegisterComponent {
    const auth: Auth.AuthService
    const router: Router
    /** The address pattern of `Validators.email`. */
    const isEmail: string -> bool
    var form: RegisterForm
    var errorMessage: string
    var isLoading: bool
    /** Set by `markAllAsTouched`. */
    var touched: bool

    constructor (auth: Auth.AuthService, router: Router, isEmail: string -> bool)
      ensures this.auth == auth && this.router == router && this.isEmail == isEmail
      ensures form == RegisterForm("", "", "", "") && !FormValid(form, isEmail)
      ensures errorMessage == "" && !isLoading && !touched
    {
      this.auth := auth;
      this.router := router;
      this.isEmail := isEmail;
      form := RegisterForm("", "", "", "");
      errorMessage := "";
      isLoading := false;
      touched := false;
      FullNameRule("", isEmail);
    }

    /** Submit: an invalid form only marks its controls touched; a valid one is passed to
        `register` with `id` standing for the generated token. On success the component
        navigates to the login view itself, after the service already did. */
    method OnSubmit(id: string)
      modifies this, auth, auth.router, router
      ensures form == old(form)
      ensures auth.storedSession == old(auth.storedSession) && auth.currentUser == old(auth.currentUser)
      ensures !FormValid(old(form), isEmail) ==>
        && touched
        && isLoading == old(isLoading) && errorMessage == old(errorMessage)
        && auth.usersBlob == old(auth.usersBlob)
        && router.log == old(router.log) && auth.router.log == old(auth.router.log)
      ensures FormValid(old(form), isEmail) ==>
        && touched == old(touched)
        && !isLoading
        && match Auth.RegisterStep(old(auth.usersBlob), Submitted(old(form)), id)
          case Success(users) =>
            && errorMessage == ""
            && auth.usersBlob == Auth.Stored(users)
            && (if router == auth.router then router.log == old(router.log) + [LoginRoute, LoginRoute]
                else auth.router.log == old(auth.router.log) + [LoginRoute] && router.log == old(router.log) + [LoginRoute])
          case Failure(message) =>
            && errorMessage == DisplayMessage(message, Auth.RegistrationFailed)
            && auth.usersBlob == old(auth.usersBlob)
            && router.log == old(router.log) && auth.router.log == old(auth.router.log)
    {
      if FormValid(form, isEmail) {
        isLoading := true;
        errorMessage := "";
        var r := auth.Register(Submitted(form), id);
        match r
        case Success(_) =>
          isLoading := false;
          router.Navigate(LoginRoute);
        case Failure(message) =>
          isLoading := false;
          errorMessage := DisplayMessage(message, Auth.RegistrationFailed);
      } else {
        touched := true;
      }
    }
  }
}
