/** The route guard of the dashboard, as its test fixes it: let an authenticated
    user through, otherwise redirect to the login view and refuse. */
module Guard {
  import opened Routing
  import Auth

  class AuthGuard {
    const auth: Auth.AuthService
    const router: Router

    constructor (auth: Auth.AuthService, router: Router)
      ensures this.auth == auth && this.router == router
    {
      this.auth := auth;
      this.router := router;
    }

    method CanActivate() returns (allowed: bool)
      modifies router
      ensures allowed == auth.IsAuthenticated()
      ensures allowed ==> router.log == old(router.log)
      ensures !allowed ==> router.log == old(router.log) + [LoginRoute]
    {
      if auth.IsAuthenticated() {
        return true;
      }
      router.Navigate(LoginRoute);
      return false;
    }
  }
}
