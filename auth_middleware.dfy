/** The authentication middleware after token verification: resolve the
    verified claims to an identity, reconcile it with the store and attach the
    user to the request; and the admin gate. The claims are those of a token the
    JWT layer has already verified. */
module AuthMiddleware {
  import opened Wrappers
  import opened Strings
  import opened Errors
  import opened UserModel
  import opened UserRepository
  import opened UserService
  import opened ErrorMiddleware

  /** The verified token's claims, by name. */
  type Claims = map<string, string>

  const ClientsMarker := "@clients"
  const ServiceEmail := "api-service@yourcompany.com"
  const ServiceName := "API Service"
  const NoAuthenticatedUser := "No authenticated user found"
  const AdminAccessRequired := "Admin access required"

  /** A claim as a JavaScript truthiness test sees it: missing or empty is falsy. */
  function Claim(claims: Claims, key: string): (r: Option<string>)
    ensures r.Some? <==> key in claims && claims[key] != ""
    ensures r.Some? ==> r.value == claims[key]
  {
    if key in claims && claims[key] != "" then Some(claims[key]) else None
  }

  /** `req.auth?.sub` when truthy. */
  function Subject(auth: Option<Claims>): Option<string> {
    if auth.None? then None else Claim(auth.value, "sub")
  }

  /** `a || b` on two optional strings. */
  function OrElse(a: Option<string>, b: string): string {
    if a.Some? then a.value else b
  }

  /** The identity handed to `findOrCreateUser`: a client-credentials subject gets
      the fixed service identity; a person gets the email claim and the
      namespaced name claim, else `name`, else ''. No role is ever passed. */
  function ResolveIdentity(sub: string, claims: Claims, audience: string): (dto: CreateUserDto)
    ensures dto.auth0Id == sub && dto.role.None? && dto.displayName.Some?
  {
    if Contains(sub, ClientsMarker) then
      CreateUserDto(sub, ServiceEmail, Some(ServiceName), None)
    else
      var email := OrElse(Claim(claims, "email"), "");
      var name := OrElse(Claim(claims, audience + "/name"), OrElse(Claim(claims, "name"), ""));
      CreateUserDto(sub, email, Some(name), None)
  }

  /** A subject containing '@clients' anywhere is the service account, whatever
      its claims say. */
  lemma ServiceAccountIgnoresClaims(sub: string, c1: Claims, c2: Claims, audience: string)
    requires Contains(sub, ClientsMarker)
    ensures ResolveIdentity(sub, c1, audience) == ResolveIdentity(sub, c2, audience)
    ensures ResolveIdentity(sub, c1, audience).email == ServiceEmail
    ensures ResolveIdentity(sub, c1, audience).displayName == Some(ServiceName)
  {
  }

  /** For a person, the email is the `email` claim, or '' when it is missing or empty. */
  lemma PersonEmail(sub: string, claims: Claims, audience: string)
    requires !Contains(sub, ClientsMarker)
    ensures var e := ResolveIdentity(sub, claims, audience).email;
      if "email" in claims then e == claims["email"] else e == ""
  {
  }

  /** For a person, the name claim under the audience's namespace wins, then
      `name`; a missing or empty claim falls through to the next, down to ''. */
  lemma PersonNamePrecedence(sub: string, claims: Claims, audience: string)
    requires !Contains(sub, ClientsMarker)
    ensures var n := ResolveIdentity(sub, claims, audience).displayName.value;
      var ns := audience + "/name";
      && (ns in claims && claims[ns] != "" ==> n == claims[ns])
      && (!(ns in claims && claims[ns] != "") && "name" in claims ==> n == claims["name"])
      && (!(ns in claims && claims[ns] != "") && !(("name" in claims) && claims["name"] != "") ==> n == "")
  {
  }

  /** `syncUserMiddleware`. Exactly one call to `next` happens: with no error
      and the user attached, or with the error. Without a subject the store is
      not touched. */
  method SyncUser(store: UserStore, auth: Option<Claims>, audience: string)
    returns (attached: Option<User>, forwarded: Option<Error>)
    requires store.Valid()
    modifies store
    ensures store.Valid()
    ensures Subject(auth).None? ==>
      && attached.None? && forwarded == Some(UnauthorizedError(NoAuthenticatedUser))
      && store.State() == old(store.State())
    ensures Subject(auth).Some? ==>
      var w := ReconcileOutcome(old(store.State()), ResolveIdentity(Subject(auth).value, auth.value, audience));
      && store.State() == w.after
      && (w.result.Success? ==> attached == Some(w.result.value) && forwarded.None?)
      && (w.result.Failure? ==> attached.None? && forwarded == Some(w.result.error))
  {
    var sub := Subject(auth);
    if sub.None? {
      return None, Some(UnauthorizedError(NoAuthenticatedUser));
    }
    var dto := ResolveIdentity(sub.value, auth.value, audience);
    var r := FindOrCreateUser(store, dto);
    if r.Failure? {
      return None, Some(r.error);
    }
    attached, forwarded := Some(r.value), None;
  }

  /** `requireAdmin`: passes exactly for an attached user whose role is 'admin';
      anything else, no user included, is Forbidden. */
  function RequireAdmin(user: Option<User>): (r: Option<Error>)
    ensures r.None? <==> user.Some? && user.value.role == AdminRole
    ensures r.Some? ==> r.value == ForbiddenError(AdminAccessRequired)
  {
    if user.Some? && user.value.role == AdminRole then None
    else Some(ForbiddenError(AdminAccessRequired))
  }

  /** A subject seen for the first time is created with role 'user' (the claims
      never carry a role), so the admin gate turns it away. */
  lemma FirstLoginIsNotAdmin(t: Table, sub: string, claims: Claims, audience: string)
    requires TableInvariant(t)
    requires FindByAuth0Id(t.users, sub).None?
    requires ReconcileOutcome(t, ResolveIdentity(sub, claims, audience)).result.Success?
    ensures var u := ReconcileOutcome(t, ResolveIdentity(sub, claims, audience)).result.value;
      RequireAdmin(Some(u)) == Some(ForbiddenError(AdminAccessRequired))
  {
    ReconcileCreatesUnseen(t, ResolveIdentity(sub, claims, audience));
  }

  /** A person whose token carries no email claim resolves to the email '', which
      the required validator refuses: on the first login the create fails, and on
      every later one the refresh does (the stored email is never ''). Either way
      nothing is written and the client gets 500. */
  lemma LoginWithoutEmailClaimFails(t: Table, sub: string, claims: Claims, audience: string)
    requires TableInvariant(t)
    requires !Contains(sub, ClientsMarker)
    requires !("email" in claims && claims["email"] != "")
    ensures var w := ReconcileOutcome(t, ResolveIdentity(sub, claims, audience));
      && w == Write(Failure(SchemaValidationError(ValidationFailed)), t)
      && HandleError(w.result.error).httpStatus == 500
  {
    var dto := ResolveIdentity(sub, claims, audience);
    assert dto.email == "";
    match FindByAuth0Id(t.users, sub)
    case Some(u) =>
      var k :| 0 <= k < |t.users| && t.users[k] == u;
      assert SchemaValid(t.users[k]);
    case None =>
  }

  /** Every client-credentials subject resolves to the same service email, which
      the unique index on `email` holds: once one service account is stored, a
      second, different one can never be created, and its login fails with a
      duplicate-key error (500). */
  lemma SecondServiceAccountFails(t: Table, sub1: string, sub2: string, c1: Claims, c2: Claims, audience: string)
    requires TableInvariant(t)
    requires Contains(sub1, ClientsMarker) && Contains(sub2, ClientsMarker) && sub1 != sub2
    requires FindByAuth0Id(t.users, sub2).None?
    requires ReconcileOutcome(t, ResolveIdentity(sub1, c1, audience)).result.Success?
    ensures var after := ReconcileOutcome(t, ResolveIdentity(sub1, c1, audience)).after;
      && ReconcileOutcome(after, ResolveIdentity(sub2, c2, audience)) == Write(Failure(DuplicateKeyError(DuplicateKey)), after)
      && HandleError(DuplicateKeyError(DuplicateKey)).httpStatus == 500
  {
    var d1 := ResolveIdentity(sub1, c1, audience);
    var d2 := ResolveIdentity(sub2, c2, audience);
    var w := ReconcileOutcome(t, d1);
    ReconcileStoresResult(t, d1);
    ReconcileResultEmail(t, d1);
    ReconcileKeepsOthersOut(t, d1, sub2);
    var k :| 0 <= k < |w.after.users| && w.after.users[k] == w.result.value;
    var i :| 0 <= i <= |sub2| && OccursAt(sub2, ClientsMarker, i);
    var v := NewUser(d2, w.after.clock);
    ReconcilePreservesInvariant(t, d1);
    assert w.after.users[k].id < w.after.clock;
    assert w.after.users[k].email == v.email;
    assert Clashes(w.after.users, v);
  }
}
