/** The password-reset page: email, six-digit code, new password and its
    confirmation; the request omits the confirmation. */
module ResetPasswordPage {
  import opened Common
  import opened Text
  import opened Session
  import opened ApiClient
  import opened SessionOps
  import opened Validation
  import opened PageFlow

  datatype Form = Form(email: string, code: string, newPassword: string, confirmPassword: string)

  /** The `resetPassword` payload. */
  datatype Request = Request(email: string, code: string, newPassword: string)

  /** `validateForm`: the shared email, code, password and confirmation rules. */
  function Validate(f: Form): (m: Errors)
    ensures Lookup(m, Email) == EmailRule(f.email)
    ensures Lookup(m, Code) == CodeRule(f.code)
    ensures Lookup(m, NewPassword) == PasswordRule(f.newPassword)
    ensures Lookup(m, ConfirmPassword) == ConfirmRule(f.newPassword, f.confirmPassword)
    ensures Name !in m && Password !in m && Phone !in m
  {
    Collect4(EmailRule(f.email), CodeRule(f.code), PasswordRule(f.newPassword),
             ConfirmRule(f.newPassword, f.confirmPassword))
  }

  /** The errors of the four reset fields, given their rules' verdicts. */
  function Collect4(email: Option<Problem>, code: Option<Problem>, newPassword: Option<Problem>,
                    confirm: Option<Problem>): (m: Errors)
    ensures Lookup(m, Email) == email && Lookup(m, Code) == code
    ensures Lookup(m, NewPassword) == newPassword && Lookup(m, ConfirmPassword) == confirm
    ensures Name !in m && Password !in m && Phone !in m
  {
    Collect(map[Email := email, Code := code, NewPassword := newPassword, ConfirmPassword := confirm])
  }

  /** The form is accepted exactly when every field's rule passes. */
  predicate Acceptable(f: Form) {
    && EmailShape(f.email)
    && SixDigits(f.code)
    && |f.newPassword| >= 8 && StrengthMatches(f.newPassword)
    && f.confirmPassword == f.newPassword
  }

  lemma ValidIffAcceptable(f: Form)
    ensures Validate(f) == map[] <==> Acceptable(f)
  {
    var m := Validate(f);
    assert m == map[] <==> forall g :: Lookup(m, g).None?;
  }

  /** `handleSubmit`: an invalid form stops with its errors; a valid one calls
      `resetPassword` with email, code and new password, sets `isSuccess` only
      if that resolves, and always ends with `isSubmitting` false. */
  function Submit(f: Form, s: AuthState, st: Store, remote: Remote<()>): (r: Submission<Request>)
    ensures r.Blocked? <==> !Acceptable(f)
    ensures r.Blocked? ==> r.errors == Validate(f) && r.errors != map[]
    ensures r.Sent? ==>
              && r.request == Request(f.email, f.code, f.newPassword)
              && r.effect == ResetPassword(s, st, remote)
              && (r.isSuccess <==> remote.Resolved?)
              && r.navigate.None?
              && !r.isSubmitting
  {
    ValidIffAcceptable(f);
    var errors := Validate(f);
    if errors != map[] then Blocked(errors)
    else
      var e := ResetPassword(s, st, remote);
      Sent(Request(f.email, f.code, f.newPassword), e, None, !e.raised, false)
  }
}
