/** What the authentication pages have in common: the router navigation they
    perform with its `location.state`, the outcome of a submit (refused by
    validation, or sent to the session), and when the page is on screen to run
    the effect that drops the session error. */
module PageFlow {
  import opened Common
  import opened Session
  import opened ApiClient
  import opened SessionOps
  import opened Validation
  import ProtectedRoute

  /** The `location.state` object pages hand each other. */
  datatype NavState = NavState(message: Option<string>, email: Option<string>, teacherId: Option<string>)

  /** A `navigate(path, { state })` call. */
  datatype Nav = Nav(path: string, state: Option<NavState>)

  const DashboardPath := "/dashboard"
  const RegisterPath := "/register"

  /** A submit either stops at validation (no session call, the errors are
      shown) or sends `request`; then `effect` is the session call's result,
      `navigate` where the page goes on success, `isSuccess` the page's success
      flag, and `isSubmitting` the flag after the `finally` block. */
  datatype Submission<Req> =
    | Blocked(errors: Errors)
    | Sent(request: Req, effect: Effect, navigate: Option<Nav>, isSuccess: bool, isSubmitting: bool)

  /** The body of the effect every form runs after a render in which one of
      its dependencies changed: a truthy session error is cleared and the
      validation errors are emptied. */
  function OnEdit(s: AuthState): (r: (AuthState, Errors))
    ensures r.1 == map[]
    ensures Truthy(s.error) ==> r.0.error.None?
    ensures !Truthy(s.error) ==> r.0.error == s.error
    ensures r.0.isAuthenticated == s.isAuthenticated && r.0.isLoading == s.isLoading && r.0.teacher == s.teacher
  {
    if Truthy(s.error) then (ClearErrorOp(s), map[]) else (s, map[])
  }

  /** What can happen while a page's route is active: the user edits the
      form, or the session reducer handles an action. */
  datatype PageEvent = Edited | Dispatched(action: AuthAction)

  /** Two independent repairs of the page's error display: `stableClearError`
      keeps `clearError` the same function across renders of the session
      provider; `keepMounted` lets the public-route guard render the page
      while the session is loading instead of replacing it by a spinner. */
  datatype Repairs = Repairs(stableClearError: bool, keepMounted: bool)

  const AsWritten := Repairs(false, false)
  const Repaired := Repairs(true, true)

  /** Whether the page is mounted. Every authentication route is wrapped in
      the guard with `requireAuth={false}`, which renders the page only when
      the session is neither loading nor signed in. */
  predicate Mounted(s: AuthState, fix: Repairs) {
    !s.isAuthenticated && (fix.keepMounted || !s.isLoading)
  }

  /** As written, the page is mounted exactly when the guard renders its children. */
  lemma MountedIsGuard(s: AuthState)
    ensures Mounted(s, AsWritten) <==> ProtectedRoute.Guard(s.isLoading, s.isAuthenticated, Some(false)) == ProtectedRoute.Children
  {
  }

  /** The session once the page's effects have run after an event. The
      effect runs when the page mounts, on every edit, and, unless
      `clearError` is stable, after every dispatch: as written `clearError` is
      a new function on every render of the provider, which re-renders after
      each dispatch. A page that is not mounted runs nothing. */
  function EffectPass(s: AuthState, ev: PageEvent, fix: Repairs): (r: AuthState)
    ensures ev.Edited? && !Mounted(s, fix) ==> r == s
    ensures ev.Edited? && Mounted(s, fix) ==> !Truthy(r.error)
    ensures ev.Edited? ==> r.isAuthenticated == s.isAuthenticated && r.isLoading == s.isLoading && r.teacher == s.teacher
    ensures ev.Dispatched? ==>
              var next := Reduce(s, ev.action);
              && r.isAuthenticated == next.isAuthenticated && r.isLoading == next.isLoading && r.teacher == next.teacher
              && (!Mounted(next, fix) ==> r == next)
              && (Mounted(next, fix) && !Mounted(s, fix) ==> !Truthy(r.error))
              && (Mounted(next, fix) && Mounted(s, fix) && fix.stableClearError ==> r == next)
              && (Mounted(next, fix) && Mounted(s, fix) && !fix.stableClearError ==> !Truthy(r.error))
  {
    match ev
    case Edited => if Mounted(s, fix) then OnEdit(s).0 else s
    case Dispatched(a) =>
      var next := Reduce(s, a);
      if !Mounted(next, fix) then next
      else if !Mounted(s, fix) || !fix.stableClearError then OnEdit(next).0
      else next
  }

  function PageRun(s: AuthState, evs: seq<PageEvent>, fix: Repairs): AuthState
    decreases |evs|
  {
    if |evs| == 0 then s else EffectPass(PageRun(s, evs[..|evs| - 1], fix), evs[|evs| - 1], fix)
  }

  /** The page events of dispatching `acts` in order. */
  function Dispatches(acts: seq<AuthAction>): (evs: seq<PageEvent>)
    ensures |evs| == |acts|
    ensures forall i :: 0 <= i < |acts| ==> evs[i] == Dispatched(acts[i])
  {
    seq(|acts|, i requires 0 <= i < |acts| => Dispatched(acts[i]))
  }

  /** As written, whenever the page is on screen after at least one event,
      it shows no session error. */
  lemma {:induction false} NoErrorSurvivesAsWritten(s: AuthState, evs: seq<PageEvent>)
    requires |evs| > 0
    ensures Mounted(PageRun(s, evs, AsWritten), AsWritten) ==> !Truthy(PageRun(s, evs, AsWritten).error)
  {
  }

  /** As written, a failed forgot-password, reset or resend request, which
      dispatches AUTH_FAILURE without AUTH_START, stores its message, and the
      effect pass that follows clears it. */
  lemma FailedReportErrorIsWiped(s: AuthState, st: Store, remote: Remote<()>, fallback: string)
    requires remote.Rejected? && fallback != "" && Mounted(s, AsWritten)
    ensures Report(s, st, remote, fallback).state == Reduce(s, AuthFailure(MessageOr(remote.message, fallback)))
    ensures Report(s, st, remote, fallback).state.error == Some(MessageOr(remote.message, fallback))
    ensures EffectPass(s, Dispatched(AuthFailure(MessageOr(remote.message, fallback))), AsWritten).error.None?
  {
  }

  /** With a stable `clearError`, the failed request's message is still shown
      after its dispatch, whether or not the guard keeps pages mounted, and
      the next edit clears it. */
  lemma FailedReportErrorShows(s: AuthState, message: string, fix: Repairs)
    requires fix.stableClearError && Mounted(s, fix) && message != ""
    ensures EffectPass(s, Dispatched(AuthFailure(message)), fix).error == Some(message)
    ensures EffectPass(EffectPass(s, Dispatched(AuthFailure(message)), fix), Edited, fix).error.None?
  {
  }

  /** Login, register and verification dispatch AUTH_START first. As written
      the guard then replaces the page by its spinner, and AUTH_FAILURE mounts
      a fresh page whose first effect run clears the message, so a stable
      `clearError` alone does not keep it. */
  lemma FailedLoginErrorIsWiped(s: AuthState, st: Store, codec: Codec, remote: Remote<AuthResponse>, fix: Repairs)
    requires remote.Rejected? && !fix.keepMounted && Mounted(s, fix)
    ensures Login(s, st, codec, remote).state == Run(s, [AuthStart, AuthFailure(MessageOr(remote.message, LoginFallback))])
    ensures !Mounted(Reduce(s, AuthStart), fix)
    ensures PageRun(s, Dispatches([AuthStart, AuthFailure(MessageOr(remote.message, LoginFallback))]), fix).error.None?
  {
    var acts := [AuthStart, AuthFailure(MessageOr(remote.message, LoginFallback))];
    assert acts[..1] == [AuthStart];
    assert Dispatches(acts)[..1] == Dispatches([AuthStart]);
    assert Dispatches(acts)[..1][..0] == [];
  }

  /** With both repairs, a rejected login leaves the page on screen showing
      its message, exactly the session the login produced. */
  lemma FailedLoginErrorShows(s: AuthState, st: Store, codec: Codec, remote: Remote<AuthResponse>)
    requires remote.Rejected? && Mounted(s, Repaired)
    ensures Mounted(Login(s, st, codec, remote).state, Repaired)
    ensures PageRun(s, Dispatches([AuthStart, AuthFailure(MessageOr(remote.message, LoginFallback))]), Repaired)
              == Login(s, st, codec, remote).state
    ensures Login(s, st, codec, remote).state.error == Some(MessageOr(remote.message, LoginFallback))
  {
    var failure := AuthFailure(MessageOr(remote.message, LoginFallback));
    var acts := [AuthStart, failure];
    assert Dispatches(acts)[..1] == Dispatches([AuthStart]);
    assert Dispatches(acts)[..1][..0] == [];
    assert PageRun(s, Dispatches([AuthStart]), Repaired) == Reduce(s, AuthStart);
    assert Login(s, st, codec, remote).state == Reduce(Reduce(s, AuthStart), failure);
  }

  /** With both repairs, dispatches that sign no one in leave the page on
      screen and its session exactly as the reducer makes it: no effect run
      touches the error until the user edits. */
  lemma {:induction false} ErrorStaysUntilEdit(s: AuthState, acts: seq<AuthAction>)
    requires Mounted(s, Repaired)
    requires forall i :: 0 <= i < |acts| ==> !acts[i].AuthSuccess?
    ensures Mounted(Run(s, acts), Repaired)
    ensures PageRun(s, Dispatches(acts), Repaired) == Run(s, acts)
    decreases |acts|
  {
    if |acts| > 0 {
      var init := acts[..|acts| - 1];
      assert Dispatches(acts)[..|acts| - 1] == Dispatches(init);
      ErrorStaysUntilEdit(s, init);
    }
  }
}
