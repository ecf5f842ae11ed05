/** The forgotten-password page: one email field, and a success flag that is
    raised only when the reset request goes through. */
module ForgotPasswordPage {
  import opened Common
  import opened Text
  import opened Session
  import opened ApiClient
  import opened SessionOps
  import opened Validation
  import opened PageFlow

  /** `validateForm`: only the email is checked. */
  function Validate(email: string): (m: Errors)
    ensures Lookup(m, Email) == EmailRule(email)
    ensures forall g :: g != Email ==> g !in m
    ensures m == map[] <==> EmailShape(email)
  {
    Collect(map[Email := EmailRule(email)])
  }

  /** `handleSubmit`: an invalid email stops with its error; a valid one calls
      `requestPasswordReset`, sets `isSuccess` only if that resolves, and
      always ends with `isSubmitting` false. */
  function Submit(email: string, s: AuthState, st: Store, remote: Remote<()>): (r: Submission<string>)
    ensures r.Blocked? <==> !EmailShape(email)
    ensures r.Blocked? ==> r.errors == Validate(email) && r.errors != map[]
    ensures r.Sent? ==>
              && r.request == email
              && r.effect == RequestPasswordReset(s, st, remote)
              && (r.isSuccess <==> remote.Resolved?)
              && r.navigate.None?
              && !r.isSubmitting
  {
    var errors := Validate(email);
    if errors != map[] then Blocked(errors)
    else
      var e := RequestPasswordReset(s, st, remote);
      Sent(email, e, None, !e.raised, false)
  }
}
