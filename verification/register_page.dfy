/** The registration form: five validated fields and an unchecked
    specialization; a valid form is sent without its confirmation field and a
    successful registration returns to the login page with a message. */
module RegisterPage {
  import opened Common
  import opened Text
  import opened Session
  import opened ApiClient
  import opened SessionOps
  import opened Validation
  import opened PageFlow
  import LoginPage

  datatype Form = Form(
    name: string,
    email: string,
    password: string,
    confirmPassword: string,
    phone: string,
    specialization: string)

  /** `registerData`: the form without `confirmPassword`. */
  datatype Request = Request(name: string, email: string, password: string, phone: string, specialization: string)

  const RegisteredMessage := "تم إنشاء الحساب بنجاح! يمكنك الآن تسجيل الدخول."

  /** `validateForm`: one rule per field; the specialization is never checked. */
  function Validate(f: Form): (m: Errors)
    ensures Lookup(m, Name) == NameRule(f.name)
    ensures Lookup(m, Email) == EmailRule(f.email)
    ensures Lookup(m, Password) == PasswordRule(f.password)
    ensures Lookup(m, ConfirmPassword) == ConfirmRule(f.password, f.confirmPassword)
    ensures Lookup(m, Phone) == PhoneRule(f.phone)
    ensures Code !in m && NewPassword !in m
  {
    Collect5(NameRule(f.name), EmailRule(f.email), PasswordRule(f.password),
             ConfirmRule(f.password, f.confirmPassword), PhoneRule(f.phone))
  }

  /** The errors of the five registration fields, given their rules' verdicts. */
  function Collect5(name: Option<Problem>, email: Option<Problem>, password: Option<Problem>,
                    confirm: Option<Problem>, phone: Option<Problem>): (m: Errors)
    ensures Lookup(m, Name) == name && Lookup(m, Email) == email && Lookup(m, Password) == password
    ensures Lookup(m, ConfirmPassword) == confirm && Lookup(m, Phone) == phone
    ensures Code !in m && NewPassword !in m
  {
    Collect(map[Name := name, Email := email, Password := password, ConfirmPassword := confirm, Phone := phone])
  }

  /** The form is accepted exactly when every field's rule passes. */
  predicate Acceptable(f: Form) {
    && |Trim(f.name)| >= 2
    && EmailShape(f.email)
    && |f.password| >= 8 && StrengthMatches(f.password)
    && f.confirmPassword == f.password
    && (forall i :: 0 <= i < |f.phone| ==> PhoneChar(f.phone[i]))
  }

  lemma ValidIffAcceptable(f: Form)
    ensures Validate(f) == map[] <==> Acceptable(f)
  {
    var m := Validate(f);
    assert m == map[] <==> forall g :: Lookup(m, g).None?;
  }

  /** The confirmation check does not depend on the password being valid: a
      weak password that is repeated exactly raises no confirmation error. */
  lemma ConfirmIndependentOfStrength(f: Form)
    requires f.confirmPassword == f.password && f.password != ""
    ensures ConfirmPassword !in Validate(f)
  {
  }

  function ToRequest(f: Form): (r: Request)
    ensures r.name == f.name && r.email == f.email && r.password == f.password
    ensures r.phone == f.phone && r.specialization == f.specialization
  {
    Request(f.name, f.email, f.password, f.phone, f.specialization)
  }

  /** `handleSubmit`: an invalid form stops with its errors; a valid one calls
      `register` with every field but the confirmation, and on success goes to
      the login page carrying a message and the email just registered. */
  function Submit(f: Form, s: AuthState, st: Store, remote: Remote<string>): (r: Submission<Request>)
    ensures r.Blocked? <==> !Acceptable(f)
    ensures r.Blocked? ==> r.errors == Validate(f) && r.errors != map[]
    ensures r.Sent? ==>
              && r.request == ToRequest(f)
              && r.effect == Register(s, st, remote).0
              && (r.effect.state.isAuthenticated ==> s.isAuthenticated)
              && (r.navigate.Some? <==> remote.Resolved?)
              && (r.navigate.Some? ==>
                    r.navigate.value == Nav(LoginPath, Some(NavState(Some(RegisteredMessage), Some(f.email), None))))
              && !r.isSubmitting
  {
    ValidIffAcceptable(f);
    var errors := Validate(f);
    if errors != map[] then Blocked(errors)
    else
      var (e, _) := Register(s, st, remote);
      var nav := Nav(LoginPath, Some(NavState(Some(RegisteredMessage), Some(f.email), None)));
      Sent(ToRequest(f), e, if e.raised then None else Some(nav), false, false)
  }

  /** A successful registration lands on the login page with its message shown
      and the registered email already in the login form. */
  lemma RegisterThenLoginPrefills(f: Form, s: AuthState, st: Store, teacherId: string, login: LoginPage.Form, msg: string)
    requires Acceptable(f)
    ensures var r := Submit(f, s, st, Resolved(teacherId));
            && r.Sent? && r.navigate.Some? && r.navigate.value.path == LoginPath
            && LoginPage.Prefill(login, msg, r.navigate.value.state) == (login.(email := f.email), RegisteredMessage)
  {
    var r := Submit(f, s, st, Resolved(teacherId));
    assert f.email != "" by {
      var a :| 0 < a < |f.email| && OnlyAt(f.email, a) && DotInside(f.email, a);
    }
  }
}
