/** The authentication session held by the AuthProvider context: the record
    `{isAuthenticated, isLoading, teacher, error}` and the six-action reducer
    that is the only way it changes. */
module Session {
  import opened Common

  /** The signed-in teacher's profile. */
  datatype Teacher = Teacher(
    id: string,
    name: string,
    email: string,
    isVerified: bool,
    phone: Option<string>,
    specialization: Option<string>)

  datatype AuthState = AuthState(
    isAuthenticated: bool,
    isLoading: bool,
    teacher: Option<Teacher>,
    error: Option<string>)

  /** The reducer's actions. The AUTH_SUCCESS payload is typed as a teacher, but
      at run time it is whatever `JSON.parse` returned, so the model lets it be
      missing (`None`, a JSON `null`); `WellTyped` says the static type holds. */
  datatype AuthAction =
    | AuthStart
    | AuthSuccess(teacher: Option<Teacher>, token: string)
    | AuthFailure(message: string)
    | Logout
    | ClearError
    | SetLoading(loading: bool)

  predicate WellTyped(a: AuthAction) {
    a.AuthSuccess? ==> a.teacher.Some?
  }

  /** The state the provider starts in: loading, nobody signed in. */
  const Initial := AuthState(false, true, None, None)

  /** Nobody signed in, nothing pending, no error: where LOGOUT always lands. */
  const SignedOut := AuthState(false, false, None, None)

  /** The session's central invariant: authenticated exactly when a teacher is held. */
  predicate Consistent(s: AuthState) {
    s.isAuthenticated <==> s.teacher.Some?
  }

  lemma InitialIsConsistent()
    ensures Consistent(Initial) && Consistent(SignedOut)
  {
  }

  /** `authReducer`. Each action's contract lists the fields it sets and the
      fields it leaves alone; every well-typed action keeps `Consistent`. */
  function Reduce(s: AuthState, a: AuthAction): (r: AuthState)
    ensures WellTyped(a) && Consistent(s) ==> Consistent(r)
    ensures a.AuthStart? ==>
              r.isLoading && r.error.None? && r.isAuthenticated == s.isAuthenticated && r.teacher == s.teacher
    ensures a.AuthSuccess? ==>
              r.isAuthenticated && !r.isLoading && r.teacher == a.teacher && r.error.None?
    ensures a.AuthFailure? ==>
              !r.isAuthenticated && !r.isLoading && r.teacher.None? && r.error == Some(a.message)
    ensures a.Logout? ==> r == SignedOut
    ensures a.ClearError? ==>
              r.error.None? && r.isAuthenticated == s.isAuthenticated && r.isLoading == s.isLoading
              && r.teacher == s.teacher
    ensures a.SetLoading? ==>
              r.isLoading == a.loading && r.isAuthenticated == s.isAuthenticated && r.teacher == s.teacher
              && r.error == s.error
  {
    match a
    case AuthStart => s.(isLoading := true, error := None)
    case AuthSuccess(teacher, _) => s.(isAuthenticated := true, isLoading := false, teacher := teacher, error := None)
    case AuthFailure(message) => s.(isAuthenticated := false, isLoading := false, teacher := None, error := Some(message))
    case Logout => s.(isAuthenticated := false, isLoading := false, teacher := None, error := None)
    case ClearError => s.(error := None)
    case SetLoading(loading) => s.(isLoading := loading)
  }

  /** CLEAR_ERROR is idempotent, and a no-op when there is no error. */
  lemma ClearErrorIdempotent(s: AuthState)
    ensures Reduce(Reduce(s, ClearError), ClearError) == Reduce(s, ClearError)
    ensures s.error.None? ==> Reduce(s, ClearError) == s
  {
  }

  /** The state after dispatching `acts` in order. */
  function Run(s: AuthState, acts: seq<AuthAction>): AuthState
    decreases |acts|
  {
    if |acts| == 0 then s else Reduce(Run(s, acts[..|acts| - 1]), acts[|acts| - 1])
  }

  /** Any sequence of well-typed actions from a consistent state (the initial
      state in particular) ends in a consistent state. */
  lemma {:induction false} RunKeepsConsistent(s: AuthState, acts: seq<AuthAction>)
    requires Consistent(s)
    requires forall i :: 0 <= i < |acts| ==> WellTyped(acts[i])
    ensures Consistent(Run(s, acts))
    decreases |acts|
  {
    if |acts| > 0 {
      RunKeepsConsistent(s, acts[..|acts| - 1]);
      assert WellTyped(acts[|acts| - 1]);
    }
  }

  /** A null AUTH_SUCCESS payload is the one action that breaks the invariant. */
  lemma NullSuccessBreaksConsistency(s: AuthState, token: string)
    ensures !Consistent(Reduce(s, AuthSuccess(None, token)))
  {
  }
}
