/** The AuthProvider's operations: the start-up bootstrap from storage and the
    login, register, verify, resend, password-reset, logout and clear-error
    calls. Each is a function of the current session, the storage, and the
    remote call's outcome, and returns the session and storage afterwards,
    whether the returned promise rejects, and where the browser was sent.
    Every remote call goes through the HTTP client, so its response
    interceptor (a 401 clears the stored session) applies to each of them. */
module SessionOps {
  import opened Common
  import opened Session
  import opened ApiClient

  /** What `JSON.parse` makes of the stored profile text: a syntax error
      (it throws), the JSON literal `null`, or a teacher record. */
  datatype Parsed = Malformed | JsonNull | Record(teacher: Teacher)

  /** `JSON.stringify` and `JSON.parse` for the teacher record. */
  datatype Codec = Codec(serialize: Teacher -> string, parse: string -> Parsed)

  /** What the two JSON functions guarantee for plain records: the text is never
      empty, it parses back to the same record, and `"null"` parses to null. */
  ghost predicate JsonLike(c: Codec) {
    && (forall t :: c.serialize(t) != "")
    && (forall t :: c.parse(c.serialize(t)) == Record(t))
    && c.parse("null") == JsonNull
  }

  datatype AuthResponse = AuthResponse(token: string, teacher: Teacher)

  /** The session and storage after an operation, whether its promise rejected,
      and where the browser was sent, if anywhere. */
  datatype Effect = Effect(state: AuthState, store: Store, raised: bool, redirect: Option<string>)

  const BootstrapError := "خطأ في بيانات المصادقة"
  const LoginFallback := "حدث خطأ أثناء تسجيل الدخول"
  const RegisterFallback := "حدث خطأ أثناء التسجيل"
  const VerifyFallback := "حدث خطأ أثناء التحقق"
  const ResendFallback := "حدث خطأ أثناء إرسال رمز التحقق"
  const RequestResetFallback := "حدث خطأ أثناء طلب استعادة كلمة المرور"
  const ResetFallback := "حدث خطأ أثناء إعادة تعيين كلمة المرور"

  /** `error.response?.data?.message || fallback`. */
  function MessageOr(message: Option<string>, fallback: string): (m: string)
    ensures message.Some? && message.value != "" ==> m == message.value
    ensures message.None? || message.value == "" ==> m == fallback
  {
    if message.Some? && message.value != "" then message.value else fallback
  }

  /** The authenticated state for `t` that AUTH_SUCCESS produces. */
  function SignedIn(t: Teacher): AuthState {
    AuthState(true, false, Some(t), None)
  }

  /** `checkAuthStatus` as the source writes it. A stored `"null"` profile
      parses without throwing and is dispatched as the AUTH_SUCCESS payload. */
  function BootstrapAsWritten(st: Store, codec: Codec): (e: Effect)
    ensures !e.raised && e.redirect.None?
    ensures !(Present(st, TokenKey) && Present(st, DataKey)) ==>
              e.store == st && e.state == SignedOut
    ensures Present(st, TokenKey) && Present(st, DataKey) && codec.parse(st[DataKey]).Record? ==>
              e.store == st && e.state == SignedIn(codec.parse(st[DataKey]).teacher)
    ensures Present(st, TokenKey) && Present(st, DataKey) && codec.parse(st[DataKey]).Malformed? ==>
              e.store == Forget(st) && e.state == Reduce(Initial, AuthFailure(BootstrapError))
    ensures Present(st, TokenKey) && Present(st, DataKey) && codec.parse(st[DataKey]).JsonNull? ==>
              e.store == st && e.state.isAuthenticated && e.state.teacher.None?
  {
    if Present(st, TokenKey) && Present(st, DataKey) then
      match codec.parse(st[DataKey])
      case Record(t) => Effect(Reduce(Initial, AuthSuccess(Some(t), st[TokenKey])), st, false, None)
      case JsonNull => Effect(Reduce(Initial, AuthSuccess(None, st[TokenKey])), st, false, None)
      case Malformed => Effect(Reduce(Initial, AuthFailure(BootstrapError)), Forget(st), false, None)
    else
      Effect(Reduce(Initial, SetLoading(false)), st, false, None)
  }

  /** With a stored token and the stored profile `"null"`, the as-written
      bootstrap reports a signed-in session that holds no teacher. */
  lemma BootstrapNullProfileIsInconsistent(codec: Codec, token: string)
    requires JsonLike(codec)
    requires token != ""
    ensures !Consistent(BootstrapAsWritten(map[TokenKey := token, DataKey := "null"], codec).state)
  {
    var st := map[TokenKey := token, DataKey := "null"];
    assert Present(st, TokenKey) && Present(st, DataKey);
    assert st[DataKey] == "null";
  }

  /** `checkAuthStatus` with the profile check it evidently intends: anything
      that does not parse to a teacher record, `null` included, is discarded
      like corrupt data. */
  function Bootstrap(st: Store, codec: Codec): (e: Effect)
    ensures Consistent(e.state) && !e.state.isLoading
    ensures !e.raised && e.redirect.None?
    ensures !(Present(st, TokenKey) && Present(st, DataKey)) ==>
              e.store == st && e.state == SignedOut
    ensures Present(st, TokenKey) && Present(st, DataKey) && codec.parse(st[DataKey]).Record? ==>
              e.store == st && e.state == SignedIn(codec.parse(st[DataKey]).teacher)
    ensures Present(st, TokenKey) && Present(st, DataKey) && !codec.parse(st[DataKey]).Record? ==>
              e.store == Forget(st) && e.state == SignedOut.(error := Some(BootstrapError))
  {
    if Present(st, TokenKey) && Present(st, DataKey) then
      match codec.parse(st[DataKey])
      case Record(t) => Effect(Reduce(Initial, AuthSuccess(Some(t), st[TokenKey])), st, false, None)
      case _ => Effect(Reduce(Initial, AuthFailure(BootstrapError)), Forget(st), false, None)
    else
      Effect(Reduce(Initial, SetLoading(false)), st, false, None)
  }

  /** The shared body of `login` and `verify2FA`: AUTH_START, the remote call,
      then on success store the token and the serialised teacher and
      authenticate; on failure record the message (or the fallback) and rethrow. */
  function Authenticate(s: AuthState, st: Store, codec: Codec, remote: Remote<AuthResponse>, fallback: string): (e: Effect)
    ensures Consistent(e.state) && !e.state.isLoading
    ensures remote.Resolved? ==>
              && e.state == SignedIn(remote.value.teacher)
              && e.store == st[TokenKey := remote.value.token][DataKey := codec.serialize(remote.value.teacher)]
              && !e.raised && e.redirect.None?
    ensures remote.Rejected? ==>
              && !e.state.isAuthenticated && e.state.teacher.None?
              && e.state.error == Some(MessageOr(remote.message, fallback))
              && e.raised
              && e.store == OnResponse(st, remote).store
              && e.redirect == OnResponse(st, remote).redirect
  {
    var started := Reduce(s, AuthStart);
    var r := OnResponse(st, remote);
    match r.outcome
    case Resolved(resp) =>
      var st' := r.store[TokenKey := resp.token][DataKey := codec.serialize(resp.teacher)];
      Effect(Reduce(started, AuthSuccess(Some(resp.teacher), resp.token)), st', false, r.redirect)
    case Rejected(_, message) =>
      Effect(Reduce(started, AuthFailure(MessageOr(message, fallback))), r.store, true, r.redirect)
  }

  /** `login`. */
  function Login(s: AuthState, st: Store, codec: Codec, remote: Remote<AuthResponse>): (e: Effect)
    ensures remote.Resolved? ==> e.state.isAuthenticated && e.state.teacher == Some(remote.value.teacher)
    ensures remote.Rejected? ==>
              && !e.state.isAuthenticated && e.raised
              && e.state.error == Some(MessageOr(remote.message, LoginFallback))
  {
    Authenticate(s, st, codec, remote, LoginFallback)
  }

  /** `verify2FA`. */
  function Verify2FA(s: AuthState, st: Store, codec: Codec, remote: Remote<AuthResponse>): (e: Effect)
    ensures remote.Resolved? ==> e.state.isAuthenticated && e.state.teacher == Some(remote.value.teacher)
    ensures remote.Rejected? ==>
              && !e.state.isAuthenticated && e.raised
              && e.state.error == Some(MessageOr(remote.message, VerifyFallback))
  {
    Authenticate(s, st, codec, remote, VerifyFallback)
  }

  /** `register`: AUTH_START, the remote call, then SET_LOADING false and the
      new teacher id, or AUTH_FAILURE and a rethrow. It never signs anyone in. */
  function Register(s: AuthState, st: Store, remote: Remote<string>): (res: (Effect, Option<string>))
    ensures res.0.state.isAuthenticated ==> s.isAuthenticated
    ensures !res.0.state.isLoading
    ensures Consistent(s) ==> Consistent(res.0.state)
    ensures remote.Resolved? ==>
              && res.1 == Some(remote.value) && !res.0.raised
              && res.0.state.error.None? && res.0.store == st
              && res.0.state.teacher == s.teacher
    ensures remote.Rejected? ==>
              && res.1.None? && res.0.raised && !res.0.state.isAuthenticated
              && res.0.state.error == Some(MessageOr(remote.message, RegisterFallback))
              && res.0.store == OnResponse(st, remote).store
  {
    var started := Reduce(s, AuthStart);
    var r := OnResponse(st, remote);
    match r.outcome
    case Resolved(teacherId) =>
      (Effect(Reduce(started, SetLoading(false)), r.store, false, r.redirect), Some(teacherId))
    case Rejected(_, message) =>
      (Effect(Reduce(started, AuthFailure(MessageOr(message, RegisterFallback))), r.store, true, r.redirect), None)
  }

  /** The shared body of `resendVerificationCode`, `requestPasswordReset` and
      `resetPassword`: no AUTH_START; success leaves the session alone, failure
      dispatches AUTH_FAILURE (ending any signed-in session) and rethrows. */
  function Report(s: AuthState, st: Store, remote: Remote<()>, fallback: string): (e: Effect)
    ensures remote.Resolved? ==> e.state == s && e.store == st && !e.raised && e.redirect.None?
    ensures remote.Rejected? ==>
              && !e.state.isAuthenticated && !e.state.isLoading && e.state.teacher.None?
              && e.state.error == Some(MessageOr(remote.message, fallback))
              && e.raised && e.store == OnResponse(st, remote).store
    ensures Consistent(s) ==> Consistent(e.state)
  {
    var r := OnResponse(st, remote);
    match r.outcome
    case Resolved(_) => Effect(s, r.store, false, r.redirect)
    case Rejected(_, message) =>
      Effect(Reduce(s, AuthFailure(MessageOr(message, fallback))), r.store, true, r.redirect)
  }

  /** `resendVerificationCode`. */
  function ResendVerificationCode(s: AuthState, st: Store, remote: Remote<()>): (e: Effect)
    ensures remote.Resolved? ==> e.state == s
    ensures remote.Rejected? ==> e.raised && e.state.error == Some(MessageOr(remote.message, ResendFallback))
  {
    Report(s, st, remote, ResendFallback)
  }

  /** `requestPasswordReset`. */
  function RequestPasswordReset(s: AuthState, st: Store, remote: Remote<()>): (e: Effect)
    ensures remote.Resolved? ==> e.state == s
    ensures remote.Rejected? ==> e.raised && e.state.error == Some(MessageOr(remote.message, RequestResetFallback))
  {
    Report(s, st, remote, RequestResetFallback)
  }

  /** `resetPassword`. */
  function ResetPassword(s: AuthState, st: Store, remote: Remote<()>): (e: Effect)
    ensures remote.Resolved? ==> e.state == s
    ensures remote.Rejected? ==> e.raised && e.state.error == Some(MessageOr(remote.message, ResetFallback))
  {
    Report(s, st, remote, ResetFallback)
  }

  /** `logout`: the client-side sign-out removes both keys and LOGOUT is
      dispatched whatever happens, so the session always ends signed out. */
  function Logout(s: AuthState, st: Store): (e: Effect)
    ensures e.state == SignedOut
    ensures !Present(e.store, TokenKey) && !Present(e.store, DataKey)
    ensures forall k :: k in st && k != TokenKey && k != DataKey ==> k in e.store && e.store[k] == st[k]
    ensures !e.raised && e.redirect.None?
  {
    Effect(Reduce(s, AuthAction.Logout), Forget(st), false, None)
  }

  /** `clearError`. */
  function ClearErrorOp(s: AuthState): (r: AuthState)
    ensures r.error.None?
    ensures r.isAuthenticated == s.isAuthenticated && r.isLoading == s.isLoading && r.teacher == s.teacher
  {
    Reduce(s, ClearError)
  }

  /** A successful login survives a reload: bootstrapping from the storage it
      wrote restores the same teacher without any remote call. */
  lemma LoginThenReloadRestoresTeacher(s: AuthState, st: Store, codec: Codec, resp: AuthResponse)
    requires JsonLike(codec)
    requires resp.token != ""
    ensures Bootstrap(Login(s, st, codec, Resolved(resp)).store, codec).state == SignedIn(resp.teacher)
  {
    var st' := Login(s, st, codec, Resolved(resp)).store;
    assert st'[TokenKey] == resp.token;
    assert st'[DataKey] == codec.serialize(resp.teacher);
    assert codec.parse(st'[DataKey]) == Record(resp.teacher);
  }

  /** Login followed by logout ends where a bootstrap over empty storage ends,
      with no session left in storage. */
  lemma LoginThenLogoutIsSignedOut(s: AuthState, codec: Codec, remote: Remote<AuthResponse>)
    ensures Logout(Login(s, map[], codec, remote).state, Login(s, map[], codec, remote).store).state
            == Bootstrap(map[], codec).state
    ensures Logout(Login(s, map[], codec, remote).state, Login(s, map[], codec, remote).store).store == map[]
  {
    var e := Login(s, map[], codec, remote);
    assert forall k :: k in e.store ==> k == TokenKey || k == DataKey;
  }

  /** A 401 on any authenticated call leaves no session in storage and sends the
      browser to the login page; the reload that follows starts signed out. */
  lemma UnauthorizedEndsSession(s: AuthState, st: Store, codec: Codec, remote: Remote<AuthResponse>, reportRemote: Remote<()>)
    requires remote.Rejected? && remote.status == Some(401)
    requires reportRemote.Rejected? && reportRemote.status == Some(401)
    ensures var e := Login(s, st, codec, remote);
      e.redirect == Some(LoginPath) && Bootstrap(e.store, codec).state == SignedOut
    ensures var e := Report(s, st, reportRemote, ResendFallback);
      e.redirect == Some(LoginPath) && Bootstrap(e.store, codec).state == SignedOut
  {
  }
}
