/** The user service: `findById` turns "no user" into NotFound, and
    `findOrCreateUser` reconciles a verified identity with the stored user:
    create on first sight, refresh email and display name when either differs,
    otherwise return the stored document untouched. There is no retry: a failing
    write's error is the result. */
module UserService {
  import opened Wrappers
  import opened Errors
  import opened UserModel
  import opened UserRepository

  /** `findById`: NotFound 'User not found' exactly when the repository has no such user. */
  function FindUser(users: seq<User>, id: RawId): (r: Result<User, Error>)
    ensures r.Failure? <==> FindById(users, id).None?
    ensures r.Failure? ==> r.error == NotFoundError(UserNotFound)
    ensures r.Success? ==> r.value in users && id == ObjectId(r.value.id)
  {
    match FindById(users, id)
    case None => Failure(NotFoundError(UserNotFound))
    case Some(u) => Success(u)
  }

  /** `existingUser.displayName !== userData.displayName`, where a stored `None` is
      `null` and a given `None` is `undefined`: the two absences also differ. */
  predicate DisplayNameDiffers(stored: Option<string>, given: Option<string>) {
    !(stored.Some? && given.Some? && stored.value == given.value)
  }

  predicate NeedsRefresh(u: User, dto: CreateUserDto) {
    u.email != dto.email || DisplayNameDiffers(u.displayName, dto.displayName)
  }

  /** `findOrCreateUser` as a function of the store's state. */
  function ReconcileOutcome(t: Table, dto: CreateUserDto): Write<User> {
    match FindByAuth0Id(t.users, dto.auth0Id)
    case Some(existing) =>
      if NeedsRefresh(existing, dto) then
        UpdateOutcome(t, ObjectId(existing.id), UpdateUserDto(dto.displayName, Some(dto.email)))
      else
        Write(Success(existing), t)
    case None => CreateOutcome(t, dto)
  }

  method FindOrCreateUser(store: UserStore, dto: CreateUserDto) returns (r: Result<User, Error>)
    requires store.Valid()
    modifies store
    ensures store.Valid()
    ensures Write(r, store.State()) == ReconcileOutcome(old(store.State()), dto)
  {
    var existing := FindByAuth0Id(store.users, dto.auth0Id);
    if existing.Some? {
      if NeedsRefresh(existing.value, dto) {
        r := store.Update(ObjectId(existing.value.id), UpdateUserDto(dto.displayName, Some(dto.email)));
        return;
      }
      return Success(existing.value);
    }
    r := store.Create(dto);
  }

  /** `updateProfile` is the repository's `update`; a display-name change leaves
      the email as it was. */
  method UpdateProfile(store: UserStore, id: RawId, dto: UpdateUserDto) returns (r: Result<User, Error>)
    requires store.Valid()
    modifies store
    ensures store.Valid()
    ensures Write(r, store.State()) == UpdateOutcome(old(store.State()), id, dto)
    ensures r.Success? && dto.email.None? ==> FindById(old(store.users), id).Some? && r.value.email == FindById(old(store.users), id).value.email
  {
    r := store.Update(id, dto);
    if r.Success? && dto.email.None? {
      if HasFields(dto) {
        UpdateWritesOnlyDefinedFields(old(store.State()), id, dto);
      }
    }
  }

  // ---------------------------------------------------------------- lemmas

  /** With unique `auth0Id`s, the document holding an `auth0Id` is the one found. */
  lemma FindByAuth0IdUnique(users: seq<User>, k: int)
    requires UniqueAuth0Ids(users) && 0 <= k < |users|
    ensures FindByAuth0Id(users, users[k].auth0Id) == Some(users[k])
  {
    var j := IndexOfAuth0Id(users, users[k].auth0Id);
    assert users[j].auth0Id == users[k].auth0Id;
  }

  /** An unseen `auth0Id` goes to `create` and nowhere else: on success exactly
      one document is added, with the given `auth0Id` and email, the given name
      (when non-empty) and, with no role given, role 'user'. A failure of
      `create` is the result as it is, with no retry and no write. */
  lemma ReconcileCreatesUnseen(t: Table, dto: CreateUserDto)
    requires TableInvariant(t)
    requires FindByAuth0Id(t.users, dto.auth0Id).None?
    ensures ReconcileOutcome(t, dto) == CreateOutcome(t, dto)
    ensures var w := ReconcileOutcome(t, dto);
      && (w.result.Failure? ==> w.after == t)
      && (w.result.Success? ==>
            && w.after.users == t.users + [w.result.value]
            && w.result.value.auth0Id == dto.auth0Id
            && w.result.value.email == dto.email
            && (dto.displayName.Some? && dto.displayName != Some("") ==> w.result.value.displayName == dto.displayName)
            && (dto.displayName in {None, Some("")} ==> w.result.value.displayName.None?)
            && (dto.role.None? ==> w.result.value.role == UserRole))
  {
    if CreateOutcome(t, dto).result.Success? {
      CreateDefaults(t, dto);
    }
  }

  /** A stored user whose email and display name both match is returned as it is,
      with no write. */
  lemma ReconcileUnchanged(t: Table, dto: CreateUserDto)
    requires FindByAuth0Id(t.users, dto.auth0Id).Some?
    requires !NeedsRefresh(FindByAuth0Id(t.users, dto.auth0Id).value, dto)
    ensures ReconcileOutcome(t, dto) == Write(Success(FindByAuth0Id(t.users, dto.auth0Id).value), t)
  {
  }

  /** When either field differs, both are overwritten with the given values
      (a given `undefined` name is not written); the id, `auth0Id` and `role`
      stay, and no document is added. */
  lemma ReconcileRefreshes(t: Table, dto: CreateUserDto)
    requires TableInvariant(t)
    requires FindByAuth0Id(t.users, dto.auth0Id).Some?
    requires NeedsRefresh(FindByAuth0Id(t.users, dto.auth0Id).value, dto)
    requires ReconcileOutcome(t, dto).result.Success?
    ensures var stored := FindByAuth0Id(t.users, dto.auth0Id).value;
      var w := ReconcileOutcome(t, dto);
      && |w.after.users| == |t.users|
      && w.result.value.email == dto.email
      && w.result.value.displayName == (if dto.displayName.Some? then dto.displayName else stored.displayName)
      && w.result.value.id == stored.id
      && w.result.value.auth0Id == stored.auth0Id
      && w.result.value.role == stored.role
  {
    var u := FindByAuth0Id(t.users, dto.auth0Id).value;
    var d := UpdateUserDto(dto.displayName, Some(dto.email));
    UpdateWritesOnlyDefinedFields(t, ObjectId(u.id), d);
    var k := IndexOfId(t.users, u.id);
    var i :| 0 <= i < |t.users| && t.users[i] == u;
    assert k == i;
  }

  /** Reconciliation keeps the store's invariants: in particular no second
      document with the same `auth0Id` ever appears. */
  lemma ReconcilePreservesInvariant(t: Table, dto: CreateUserDto)
    requires TableInvariant(t)
    ensures TableInvariant(ReconcileOutcome(t, dto).after)
  {
    match FindByAuth0Id(t.users, dto.auth0Id)
    case Some(u) =>
      UpdatePreservesInvariant(t, ObjectId(u.id), UpdateUserDto(dto.displayName, Some(dto.email)));
    case None =>
      CreatePreservesInvariant(t, dto);
  }

  /** After a successful reconciliation the stored document for the `auth0Id` is
      the one returned. */
  lemma ReconcileStoresResult(t: Table, dto: CreateUserDto)
    requires TableInvariant(t)
    requires ReconcileOutcome(t, dto).result.Success?
    ensures var w := ReconcileOutcome(t, dto);
      FindByAuth0Id(w.after.users, dto.auth0Id) == Some(w.result.value)
  {
    var w := ReconcileOutcome(t, dto);
    ReconcilePreservesInvariant(t, dto);
    match FindByAuth0Id(t.users, dto.auth0Id)
    case Some(u) =>
      if NeedsRefresh(u, dto) {
        var d := UpdateUserDto(dto.displayName, Some(dto.email));
        UpdateWritesOnlyDefinedFields(t, ObjectId(u.id), d);
        var k := IndexOfId(t.users, u.id);
        var i :| 0 <= i < |t.users| && t.users[i] == u;
        assert k == i;
        FindByAuth0IdUnique(w.after.users, k);
      }
    case None =>
      FindByAuth0IdUnique(w.after.users, |t.users|);
  }

  /** Repeating a reconciliation with a non-empty name writes nothing the second
      time and returns the same user. */
  lemma ReconcileIdempotent(t: Table, dto: CreateUserDto)
    requires TableInvariant(t)
    requires ReconcileOutcome(t, dto).result.Success?
    requires dto.displayName.Some? && dto.displayName != Some("")
    ensures var w := ReconcileOutcome(t, dto);
      ReconcileOutcome(w.after, dto) == w
  {
    var w := ReconcileOutcome(t, dto);
    ReconcileStoresResult(t, dto);
    match FindByAuth0Id(t.users, dto.auth0Id)
    case Some(u) =>
      if NeedsRefresh(u, dto) {
        ReconcileRefreshes(t, dto);
      }
    case None =>
      CreateDefaults(t, dto);
  }

  /** With an empty name, `create` stores `null`, and `null !== ''`: the first
      repeat writes once more (storing `''`), and the one after that writes nothing. */
  lemma ReconcileEmptyNameWritesOnce(t: Table, dto: CreateUserDto)
    requires TableInvariant(t)
    requires FindByAuth0Id(t.users, dto.auth0Id).None?
    requires ReconcileOutcome(t, dto).result.Success?
    requires dto.displayName == Some("")
    ensures var w1 := ReconcileOutcome(t, dto);
      var w2 := ReconcileOutcome(w1.after, dto);
      && w1.result.value.displayName == None
      && w2.result.Success?
      && w2.after != w1.after
      && w2.result.value.displayName == Some("")
      && ReconcileOutcome(w2.after, dto) == w2
  {
    var w1 := ReconcileOutcome(t, dto);
    CreateDefaults(t, dto);
    ReconcileStoresResult(t, dto);
    ReconcilePreservesInvariant(t, dto);
    var u := w1.result.value;
    var k := |t.users|;
    assert w1.after.users[k] == u;
    var d := UpdateUserDto(dto.displayName, Some(dto.email));
    assert IndexOfId(w1.after.users, u.id) == k by {
      var j := IndexOfId(w1.after.users, u.id);
      assert w1.after.users[j].id == u.id;
    }
    var p := Patch(u, d, w1.after.clock);
    assert !Clashes(w1.after.users, p) by {
      forall i | 0 <= i < |w1.after.users|
        ensures !(w1.after.users[i].id != p.id && (w1.after.users[i].auth0Id == p.auth0Id || w1.after.users[i].email == p.email))
      {
        if i != k {
          assert w1.after.users[i].auth0Id != w1.after.users[k].auth0Id;
          assert w1.after.users[i].email != w1.after.users[k].email;
        }
      }
    }
    var w2 := ReconcileOutcome(w1.after, dto);
    assert w2.after.clock == w1.after.clock + 1;
    ReconcileStoresResult(w1.after, dto);
    ReconcileRefreshes(w1.after, dto);
  }

  /** A successful reconciliation answers a user with the given email. */
  lemma ReconcileResultEmail(t: Table, dto: CreateUserDto)
    requires TableInvariant(t)
    requires ReconcileOutcome(t, dto).result.Success?
    ensures ReconcileOutcome(t, dto).result.value.email == dto.email
  {
    match FindByAuth0Id(t.users, dto.auth0Id)
    case Some(e) =>
      if NeedsRefresh(e, dto) {
        ReconcileRefreshes(t, dto);
      }
    case None =>
      ReconcileCreatesUnseen(t, dto);
  }

  /** Reconciling one identity never stores another `auth0Id`. */
  lemma ReconcileKeepsOthersOut(t: Table, dto: CreateUserDto, other: string)
    requires TableInvariant(t)
    requires other != dto.auth0Id && FindByAuth0Id(t.users, other).None?
    ensures FindByAuth0Id(ReconcileOutcome(t, dto).after.users, other).None?
  {
    var after := ReconcileOutcome(t, dto).after;
    match FindByAuth0Id(t.users, dto.auth0Id)
    case Some(e) =>
      UpdateKeepsIdentity(t, ObjectId(e.id), UpdateUserDto(dto.displayName, Some(dto.email)));
      forall v | v in after.users ensures v.auth0Id != other {
        var j :| 0 <= j < |after.users| && after.users[j] == v;
        assert t.users[j] in t.users;
      }
    case None =>
      if CreateOutcome(t, dto).result.Success? {
        CreateDefaults(t, dto);
      }
  }
}
