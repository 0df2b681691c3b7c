/** Client code that uses only the contracts of the service, the forms and the guard. */
module Scenarios {
  import opened Wrappers
  import opened Routing
  import Auth
  import Register
  import Guard

  /** Register, a duplicate registration, a password mismatch, a wrong and a right password, the guard
      on both sides of logout, with one shared router. */
  method SessionLifecycle()
  {
    var router := new Router();
    var service := new Auth.AuthService(router, Auth.Absent, None);
    var guard := new Guard.AuthGuard(service, router);
    var data := Auth.RegisterData("Test user", "testuser1@gmail.com", "password123", "password123");

    var r := service.Register(data, "k3j5x9q2a");
    assert r == Success(());
    assert service.usersBlob == Auth.Stored([Auth.User(Some("k3j5x9q2a"), "Test user", "testuser1@gmail.com", "password123")]);

    r := service.Register(data, "p0w8e1r7t");
    assert r == Failure(Auth.EmailExists);

    var other := Auth.RegisterData("Test user", "testuser2@gmail.com", "password123", "wrongPassword");
    r := service.Register(other, "p0w8e1r7t");
    assert r == Failure(Auth.PasswordMismatch);

    r := service.Login("testuser1@gmail.com", "wrongPassword");
    assert r == Failure(Auth.InvalidCredentials);
    var allowed := guard.CanActivate();
    assert !allowed;

    r := service.Login("testuser1@gmail.com", "password123");
    assert service.CurrentUserValue() == Some(Auth.Profile(Some("k3j5x9q2a"), "Test user", "testuser1@gmail.com", None));
    allowed := guard.CanActivate();
    assert allowed;

    service.Logout();
    assert !service.IsAuthenticated();
    assert router.log == [LoginRoute, LoginRoute, DashboardRoute, LoginRoute];
  }

  /** A valid registration submitted through the form navigates to the login view twice:
      once in the service and once in the component. */
  method RegisterThroughForm(isEmail: string -> bool)
    requires isEmail("testuser1@gmail.com")
  {
    var router := new Router();
    var service := new Auth.AuthService(router, Auth.Absent, None);
    var component := new Register.RegisterComponent(service, router, isEmail);
    component.form := Register.RegisterForm("Test user", "testuser1@gmail.com", "123456", "123456");
    Register.FormValidIff(component.form, isEmail);
    component.OnSubmit("k3j5x9q2a");
    assert component.errorMessage == "" && !component.isLoading;
    assert router.log == [LoginRoute, LoginRoute];
  }
}
