/** The router, reduced to the log of the navigations it was asked to perform. */
module Routing {

  const LoginRoute: string := "/login"
  const DashboardRoute: string := "/dashboard"

  class Router {
    /** Every target passed to `navigate`, oldest first. */
    var log: seq<string>

    constructor ()
      ensures log == []
    {
      log := [];
    }

    /** `router.navigate([url])`: records the request and nothing else. */
    method Navigate(url: string)
      modifies this
      ensures log == old(log) + [url]
    {
      log := log + [url];
    }
  }
}
