/** The route guard that wraps every page: it decides from the session's
    `isLoading` and `isAuthenticated` flags and the route's `requireAuth` prop
    whether to show a spinner, redirect, or render the page. */
module ProtectedRoute {
  import opened Common

  datatype Outcome = Spinner | RedirectToLogin | RedirectToDashboard | Children

  /** The `requireAuth` prop, which is `true` when the route omits it. */
  function RequireAuth(prop: Option<bool>): (b: bool)
    ensures prop.None? ==> b
    ensures prop.Some? ==> b == prop.value
  {
    prop.GetOr(true)
  }

  /** The guard's decision, in the order the source tests its conditions. */
  function Guard(isLoading: bool, isAuthenticated: bool, requireAuthProp: Option<bool>): (o: Outcome)
    ensures isLoading ==> o == Spinner
    ensures !isLoading && RequireAuth(requireAuthProp) && !isAuthenticated ==> o == RedirectToLogin
    ensures !isLoading && !RequireAuth(requireAuthProp) && isAuthenticated ==> o == RedirectToDashboard
    ensures o == Children <==> !isLoading && RequireAuth(requireAuthProp) == isAuthenticated
  {
    var requireAuth := RequireAuth(requireAuthProp);
    if isLoading then Spinner
    else if requireAuth && !isAuthenticated then RedirectToLogin
    else if !requireAuth && isAuthenticated then RedirectToDashboard
    else Children
  }

  /** Each outcome is reached by exactly one region of the input space: the four
      regions cover every input and do not overlap. */
  lemma GuardRegions(isLoading: bool, isAuthenticated: bool, requireAuthProp: Option<bool>)
    ensures var o := Guard(isLoading, isAuthenticated, requireAuthProp);
            var req := RequireAuth(requireAuthProp);
            && (o == Spinner <==> isLoading)
            && (o == RedirectToLogin <==> !isLoading && req && !isAuthenticated)
            && (o == RedirectToDashboard <==> !isLoading && !req && isAuthenticated)
            && (o == Children <==> !isLoading && req == isAuthenticated)
  {
  }

  /** A route that omits `requireAuth` behaves as one that sets it to `true`. */
  lemma OmittedPropRequiresAuth(isLoading: bool, isAuthenticated: bool)
    ensures Guard(isLoading, isAuthenticated, None) == Guard(isLoading, isAuthenticated, Some(true))
  {
  }
}
