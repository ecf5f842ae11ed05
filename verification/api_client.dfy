/** The shared HTTP client's two interceptors and the browser storage they
    read and clear. Storage is a string map; a remote call's outcome is a
    parameter, either a resolved value or a rejection with the response's HTTP
    status (absent when no response arrived) and the server's message. */
module ApiClient {
  import opened Common

  /** `localStorage`. */
  type Store = map<string, string>

  const TokenKey := "teacherToken"
  const DataKey := "teacherData"
  const AuthorizationHeader := "Authorization"
  const BearerPrefix := "Bearer "
  const LoginPath := "/login"

  /** `localStorage.getItem(k)` yields a truthy value: the key is set to a non-empty string. */
  predicate Present(st: Store, k: string) {
    k in st && st[k] != ""
  }

  /** Removes both session keys (`removeItem` twice); every other entry stays. */
  function Forget(st: Store): (r: Store)
    ensures TokenKey !in r && DataKey !in r
    ensures forall k :: k in st && k != TokenKey && k != DataKey ==> k in r && r[k] == st[k]
    ensures forall k :: k in r ==> k in st
  {
    st - {TokenKey, DataKey}
  }

  /** The outcome of a remote call. */
  datatype Remote<T> = Resolved(value: T) | Rejected(status: Option<int>, message: Option<string>)

  /** Request interceptor: with a stored token the request carries
      `Authorization: Bearer <token>`; without one the headers go out as they came. */
  function AttachToken(st: Store, headers: map<string, string>): (r: map<string, string>)
    ensures Present(st, TokenKey) ==>
              && AuthorizationHeader in r
              && |r[AuthorizationHeader]| == |BearerPrefix| + |st[TokenKey]|
              && r[AuthorizationHeader][..|BearerPrefix|] == BearerPrefix
              && r[AuthorizationHeader][|BearerPrefix|..] == st[TokenKey]
    ensures !Present(st, TokenKey) ==> r == headers
    ensures forall h :: h in headers && h != AuthorizationHeader ==> h in r && r[h] == headers[h]
    ensures forall h :: h in r && h != AuthorizationHeader ==> h in headers
  {
    if Present(st, TokenKey) then headers[AuthorizationHeader := BearerPrefix + st[TokenKey]] else headers
  }

  /** What the response interceptor hands back: the outcome the caller sees,
      the storage afterwards, and the page it sends the browser to, if any. */
  datatype Intercepted<T> = Intercepted(outcome: Remote<T>, store: Store, redirect: Option<string>)

  /** Response interceptor: successes pass through; every error is re-rejected;
      a 401 additionally clears both session keys and sends the browser to the
      login page. */
  function OnResponse<T>(st: Store, outcome: Remote<T>): (r: Intercepted<T>)
    ensures r.outcome == outcome
    ensures outcome.Rejected? && outcome.status == Some(401) ==>
              r.store == Forget(st) && r.redirect == Some(LoginPath)
    ensures !(outcome.Rejected? && outcome.status == Some(401)) ==> r.store == st && r.redirect.None?
  {
    if outcome.Rejected? && outcome.status == Some(401) then Intercepted(outcome, Forget(st), Some(LoginPath))
    else Intercepted(outcome, st, None)
  }

  /** After a 401 neither session key can be read back. */
  lemma UnauthorizedLeavesNoSession<T>(st: Store, outcome: Remote<T>)
    requires outcome.Rejected? && outcome.status == Some(401)
    ensures !Present(OnResponse(st, outcome).store, TokenKey)
    ensures !Present(OnResponse(st, outcome).store, DataKey)
  {
  }
}
