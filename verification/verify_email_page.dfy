/** The email-verification page: it needs the email and teacher id that
    registration passes in the navigation state, checks a six-digit code, and
    can ask for the code to be sent again. */
module VerifyEmailPage {
  import opened Common
  import opened Text
  import opened Session
  import opened ApiClient
  import opened SessionOps
  import opened Validation
  import opened PageFlow

  /** The `verify2FA` payload; the email is read from the navigation state. */
  datatype Request = Request(email: Option<string>, code: string)

  const ResentMessage := "تم إرسال رمز التحقق الجديد إلى بريدك الإلكتروني"
  const ResendFailedMessage := "حدث خطأ أثناء إرسال رمز التحقق"

  function EmailOf(state: Option<NavState>): Option<string> {
    if state.Some? then state.value.email else None
  }

  function TeacherIdOf(state: Option<NavState>): Option<string> {
    if state.Some? then state.value.teacherId else None
  }

  /** The redirect effect, as the paths it navigates to in order: the
      dashboard for a signed-in user, then the registration page when the
      email or the teacher id is missing. Both can fire; the later one wins. */
  function Redirects(isAuthenticated: bool, state: Option<NavState>): (r: seq<string>)
    ensures DashboardPath in r <==> isAuthenticated
    ensures RegisterPath in r <==> !(Truthy(EmailOf(state)) && Truthy(TeacherIdOf(state)))
    ensures |r| <= 2
    ensures |r| > 0 && !(Truthy(EmailOf(state)) && Truthy(TeacherIdOf(state))) ==> r[|r| - 1] == RegisterPath
    ensures |r| > 0 && Truthy(EmailOf(state)) && Truthy(TeacherIdOf(state)) ==> r == [DashboardPath]
  {
    (if isAuthenticated then [DashboardPath] else [])
      + (if !Truthy(EmailOf(state)) || !Truthy(TeacherIdOf(state)) then [RegisterPath] else [])
  }

  /** `validateForm`: only the code is checked. */
  function Validate(code: string): (m: Errors)
    ensures Lookup(m, Code) == CodeRule(code)
    ensures forall g :: g != Code ==> g !in m
    ensures m == map[] <==> SixDigits(code)
  {
    Collect(map[Code := CodeRule(code)])
  }

  /** `handleSubmit`: an invalid code stops with its error; a valid one calls
      `verify2FA` with the state's email and the code, goes to the dashboard
      if that resolves, and always ends with `isSubmitting` false. */
  function Submit(code: string, state: Option<NavState>, s: AuthState, st: Store, codec: Codec,
                  remote: Remote<AuthResponse>): (r: Submission<Request>)
    ensures r.Blocked? <==> !SixDigits(code)
    ensures r.Blocked? ==> r.errors == Validate(code) && r.errors != map[]
    ensures r.Sent? ==>
              && r.request == Request(EmailOf(state), code)
              && r.effect == Verify2FA(s, st, codec, remote)
              && (r.navigate.Some? <==> remote.Resolved?)
              && (r.navigate.Some? ==> r.navigate.value == Nav(DashboardPath, None))
              && !r.isSubmitting
  {
    var errors := Validate(code);
    if errors != map[] then Blocked(errors)
    else
      var e := Verify2FA(s, st, codec, remote);
      Sent(Request(EmailOf(state), code), e, if e.raised then None else Some(Nav(DashboardPath, None)), false, false)
  }

  /** What a resend leaves behind: the session call's effect, the message shown,
      and the `isResending` flag. */
  datatype Resent = Resent(effect: Effect, message: string, isResending: bool)

  /** `handleResendCode`: without an email nothing happens; otherwise the code is
      requested again and the page reports whether that worked. */
  function Resend(state: Option<NavState>, s: AuthState, st: Store, remote: Remote<()>): (r: Option<Resent>)
    ensures r.None? <==> !Truthy(EmailOf(state))
    ensures r.Some? ==>
              && r.value.effect == ResendVerificationCode(s, st, remote)
              && (r.value.message == ResentMessage <==> remote.Resolved?)
              && (r.value.message == ResendFailedMessage <==> remote.Rejected?)
              && !r.value.isResending
  {
    if !Truthy(EmailOf(state)) then None
    else
      var e := ResendVerificationCode(s, st, remote);
      Some(Resent(e, if e.raised then ResendFailedMessage else ResentMessage, false))
  }
}
