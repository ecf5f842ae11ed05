/** The login form: its validation, its submit, and the effect that copies a
    message (and an email) from the navigation state into the page. */
module LoginPage {
  import opened Common
  import opened Text
  import opened Session
  import opened ApiClient
  import opened SessionOps
  import opened Validation
  import opened PageFlow

  datatype Form = Form(email: string, password: string)

  /** `validateForm`: the email rule, and a password that is merely present. */
  function Validate(f: Form): (m: Errors)
    ensures Lookup(m, Email) == EmailRule(f.email)
    ensures Lookup(m, Password) == PresenceRule(f.password)
    ensures forall g :: g != Email && g != Password ==> g !in m
    ensures Email in m <==> !EmailShape(f.email)
    ensures Email in m ==> m[Email] == (if IsBlank(f.email) then Required else BadFormat)
    ensures Password in m <==> f.password == ""
    ensures Password in m ==> m[Password] == Required
    ensures m == map[] <==> EmailShape(f.email) && f.password != ""
  {
    Collect(map[Email := EmailRule(f.email), Password := PresenceRule(f.password)])
  }

  /** `handleSubmit`: an invalid form stops with its errors; a valid one calls
      `login` with the form, goes to the dashboard if that resolves, and always
      ends with `isSubmitting` false. */
  function Submit(f: Form, s: AuthState, st: Store, codec: Codec, remote: Remote<AuthResponse>): (r: Submission<Form>)
    ensures r.Blocked? <==> !(EmailShape(f.email) && f.password != "")
    ensures r.Blocked? ==> r.errors == Validate(f) && r.errors != map[]
    ensures r.Sent? ==>
              && r.request == f
              && r.effect == Login(s, st, codec, remote)
              && (r.navigate.Some? <==> remote.Resolved?)
              && (r.navigate.Some? ==> r.navigate.value == Nav(DashboardPath, None))
              && !r.isSubmitting
  {
    var errors := Validate(f);
    if errors != map[] then Blocked(errors)
    else
      var e := Login(s, st, codec, remote);
      Sent(f, e, if e.raised then None else Some(Nav(DashboardPath, None)), false, false)
  }

  /** The navigation-state effect: a truthy `message` becomes the success
      message, and then a truthy `email` replaces the email field; without a
      message nothing changes, whatever else the state holds. */
  function Prefill(f: Form, successMessage: string, state: Option<NavState>): (r: (Form, string))
    ensures state.Some? && Truthy(state.value.message) ==> r.1 == state.value.message.value
    ensures state.Some? && Truthy(state.value.message) && Truthy(state.value.email) ==>
              r.0 == f.(email := state.value.email.value)
    ensures state.Some? && Truthy(state.value.message) && !Truthy(state.value.email) ==> r.0 == f
    ensures !(state.Some? && Truthy(state.value.message)) ==> r == (f, successMessage)
    ensures r.0.password == f.password
  {
    if state.Some? && Truthy(state.value.message) then
      var f' := if Truthy(state.value.email) then f.(email := state.value.email.value) else f;
      (f', state.value.message.value)
    else (f, successMessage)
  }
}
