/** The user repository: lookups, create with defaulting, partial update, and the
    paginated, filtered, newest-first listing. Queries are functions of the
    stored documents; `create` and `update` are methods of `UserStore`, each tied
    to a function of the old state that the lemmas below reason about. */
module UserRepository {
  import opened Wrappers
  import opened Strings
  import opened Errors
  import opened UserModel
  import opened Seqs

  /** The result of a store operation together with the state it leaves. */
  datatype Write<T> = Write(result: Result<T, Error>, after: Table)

  const ValidationFailed := "User validation failed"
  const DuplicateKey := "E11000 duplicate key error"
  const CastFailed := "Cast to ObjectId failed"
  const DefaultPage := 1
  const DefaultLimit := 10

  // ---------------------------------------------------------------- lookups

  /** Position of the document whose id is `n`, or -1. */
  function IndexOfId(users: seq<User>, n: nat): int {
    IndexOfKey(users, (u: User) => u.id, n)
  }

  /** Position of the document whose `auth0Id` is `auth0Id`, or -1. */
  function IndexOfAuth0Id(users: seq<User>, auth0Id: string): int {
    IndexOfKey(users, (u: User) => u.auth0Id, auth0Id)
  }

  /** `findById`: a malformed id is not an error but "no user". */
  function FindById(users: seq<User>, id: RawId): (r: Option<User>)
    ensures r.Some? ==> r.value in users && id == ObjectId(r.value.id)
    ensures r.None? <==> (id.Malformed? || forall u :: u in users ==> u.id != id.n)
  {
    if id.Malformed? then None
    else
      var k := IndexOfId(users, id.n);
      if k < 0 then None else Some(users[k])
  }

  /** `findByAuth0Id`: "no record" is a result, not an error. */
  function FindByAuth0Id(users: seq<User>, auth0Id: string): (r: Option<User>)
    ensures r.Some? ==> r.value in users && r.value.auth0Id == auth0Id
    ensures r.None? <==> forall u :: u in users ==> u.auth0Id != auth0Id
  {
    var k := IndexOfAuth0Id(users, auth0Id);
    if k < 0 then None else Some(users[k])
  }

  // ----------------------------------------------------------------- create

  /** The document `create` builds: `displayName || null` and `role || 'user'`. */
  function NewUser(dto: CreateUserDto, stamp: nat): User {
    User(
      stamp,
      dto.auth0Id,
      dto.email,
      if dto.displayName == None || dto.displayName == Some("") then None else dto.displayName,
      if dto.role == None || dto.role == Some("") then UserRole else dto.role.value,
      stamp,
      stamp)
  }

  /** Another document (a different id) already holds `u`'s `auth0Id` or `email`. */
  predicate Clashes(users: seq<User>, u: User) {
    exists i | 0 <= i < |users| :: users[i].id != u.id && (users[i].auth0Id == u.auth0Id || users[i].email == u.email)
  }

  /** `create`: `save` runs the schema validators, then the unique indexes. */
  function CreateOutcome(t: Table, dto: CreateUserDto): Write<User> {
    var u := NewUser(dto, t.clock);
    if !SchemaValid(u) then Write(Failure(SchemaValidationError(ValidationFailed)), t)
    else if Clashes(t.users, u) then Write(Failure(DuplicateKeyError(DuplicateKey)), t)
    else Write(Success(u), Table(t.users + [u], t.clock + 1))
  }

  // ----------------------------------------------------------------- update

  /** The fields of the DTO that are defined (`!== undefined`). */
  predicate HasFields(dto: UpdateUserDto) {
    dto.displayName.Some? || dto.email.Some?
  }

  /** `$set` of the defined fields, with the timestamp the store maintains. */
  function Patch(u: User, dto: UpdateUserDto, stamp: nat): User {
    u.(displayName := if dto.displayName.Some? then dto.displayName else u.displayName,
       email := if dto.email.Some? then dto.email.value else u.email,
       updatedAt := stamp)
  }

  /** `update`. With no defined field it is a lookup that fails with NotFound.
      Otherwise `findByIdAndUpdate` casts the id (a malformed one throws), runs
      the update validators on the written paths, finds nothing (NotFound) or
      writes, subject to the unique indexes. */
  function UpdateOutcome(t: Table, id: RawId, dto: UpdateUserDto): Write<User> {
    if !HasFields(dto) then
      match FindById(t.users, id)
      case None => Write(Failure(NotFoundError(UserNotFound)), t)
      case Some(u) => Write(Success(u), t)
    else if id.Malformed? then Write(Failure(CastError(CastFailed)), t)
    else if dto.email == Some("") then Write(Failure(SchemaValidationError(ValidationFailed)), t)
    else
      var k := IndexOfId(t.users, id.n);
      if k < 0 then Write(Failure(NotFoundError(UserNotFound)), t)
      else
        var u := Patch(t.users[k], dto, t.clock);
        if Clashes(t.users, u) then Write(Failure(DuplicateKeyError(DuplicateKey)), t)
        else Write(Success(u), Table(t.users[k := u], t.clock + 1))
  }

  /** `updateAuth0UserInfo`: NotFound for an unknown `auth0Id`, else `update`. */
  function UpdateAuth0UserInfoOutcome(t: Table, auth0Id: string, dto: UpdateUserDto): Write<User> {
    match FindByAuth0Id(t.users, auth0Id)
    case None => Write(Failure(NotFoundError(UserNotFound)), t)
    case Some(u) => UpdateOutcome(t, ObjectId(u.id), dto)
  }

  // ---------------------------------------------------------------- listing

  function EffectivePage(f: UserFilters): nat {
    if f.page.None? || f.page.value == 0 then DefaultPage else f.page.value
  }

  function EffectiveLimit(f: UserFilters): nat {
    if f.limit.None? || f.limit.value == 0 then DefaultLimit else f.limit.value
  }

  /** The `$or` of the two case-insensitive matches; an empty search is no filter. */
  predicate Matches(u: User, search: Option<string>) {
    || search.None?
    || search.value == ""
    || ContainsIgnoreCase(u.email, search.value)
    || (u.displayName.Some? && ContainsIgnoreCase(u.displayName.value, search.value))
  }

  function Filter(users: seq<User>, search: Option<string>): (r: seq<User>)
    ensures |r| <= |users|
  {
    if users == [] then []
    else (if Matches(users[0], search) then [users[0]] else []) + Filter(users[1..], search)
  }

  function Reverse(s: seq<User>): (r: seq<User>)
    ensures |r| == |s|
  {
    if s == [] then [] else Reverse(s[1..]) + [s[0]]
  }

  /** `Math.ceil(total / limit)`. */
  function CeilDiv(total: nat, limit: nat): nat
    requires limit > 0
  {
    (total + limit - 1) / limit
  }

  /** `findAll`. The store keeps documents in creation order, so the sort on
      `createdAt` descending is the reverse of that order. */
  function FindAll(users: seq<User>, f: UserFilters): (r: PaginatedUsers)
    ensures r.page == EffectivePage(f) >= 1 && r.limit == EffectiveLimit(f) >= 1
    ensures |r.users| <= r.limit
    ensures r.total == |Filter(users, f.search)|
    ensures r.totalPages == CeilDiv(r.total, r.limit)
  {
    var page := EffectivePage(f);
    var limit := EffectiveLimit(f);
    var skip := (page - 1) * limit;
    var matches := Reverse(Filter(users, f.search));
    PaginatedUsers(Window(matches, skip, limit), |matches|, page, limit, CeilDiv(|matches|, limit))
  }

  /** `.skip(skip).limit(limit)` on the sorted matches. */
  function Window(s: seq<User>, skip: nat, limit: nat): (w: seq<User>)
    ensures |w| <= limit
    ensures forall m :: 0 <= m < |w| ==> skip + m < |s| && w[m] == s[skip + m]
    ensures skip < |s| ==> |w| == if skip + limit >= |s| then |s| - skip else limit
  {
    if skip >= |s| then []
    else if skip + limit >= |s| then s[skip..]
    else s[skip..skip + limit]
  }

  // ------------------------------------------------------------ the store

  /** The users collection. */
  class UserStore {
    var users: seq<User>
    var clock: nat

    function State(): Table
      reads this
    {
      Table(users, clock)
    }

    ghost predicate Valid()
      reads this
    {
      TableInvariant(State())
    }

    constructor ()
      ensures Valid() && users == [] && clock == 0
    {
      users := [];
      clock := 0;
    }

    method Create(dto: CreateUserDto) returns (r: Result<User, Error>)
      requires Valid()
      modifies this
      ensures Valid()
      ensures Write(r, State()) == CreateOutcome(old(State()), dto)
      ensures r.Success? ==> users == old(users) + [r.value] && clock == old(clock) + 1
      ensures r.Failure? ==> users == old(users) && clock == old(clock)
    {
      var u := NewUser(dto, clock);
      if !SchemaValid(u) {
        return Failure(SchemaValidationError(ValidationFailed));
      }
      if Clashes(users, u) {
        return Failure(DuplicateKeyError(DuplicateKey));
      }
      CreatePreservesInvariant(State(), dto);
      users := users + [u];
      clock := clock + 1;
      r := Success(u);
    }

    method Update(id: RawId, dto: UpdateUserDto) returns (r: Result<User, Error>)
      requires Valid()
      modifies this
      ensures Valid()
      ensures Write(r, State()) == UpdateOutcome(old(State()), id, dto)
      ensures r.Failure? ==> users == old(users) && clock == old(clock)
    {
      UpdatePreservesInvariant(State(), id, dto);
      var updateData := UpdateUserDto(None, None);
      if dto.displayName.Some? {
        updateData := updateData.(displayName := dto.displayName);
      }
      if dto.email.Some? {
        updateData := updateData.(email := dto.email);
      }
      if !HasFields(updateData) {
        var current := FindById(users, id);
        if current.None? {
          return Failure(NotFoundError(UserNotFound));
        }
        return Success(current.value);
      }
      if id.Malformed? {
        return Failure(CastError(CastFailed));
      }
      if updateData.email == Some("") {
        return Failure(SchemaValidationError(ValidationFailed));
      }
      var k := IndexOfId(users, id.n);
      if k < 0 {
        return Failure(NotFoundError(UserNotFound));
      }
      var updated := users[k];
      if updateData.displayName.Some? {
        updated := updated.(displayName := updateData.displayName);
      }
      if updateData.email.Some? {
        updated := updated.(email := updateData.email.value);
      }
      updated := updated.(updatedAt := clock);
      if Clashes(users, updated) {
        return Failure(DuplicateKeyError(DuplicateKey));
      }
      users := users[k := updated];
      clock := clock + 1;
      r := Success(updated);
    }

    method UpdateAuth0UserInfo(auth0Id: string, dto: UpdateUserDto) returns (r: Result<User, Error>)
      requires Valid()
      modifies this
      ensures Valid()
      ensures Write(r, State()) == UpdateAuth0UserInfoOutcome(old(State()), auth0Id, dto)
    {
      var user := FindByAuth0Id(users, auth0Id);
      if user.None? {
        return Failure(NotFoundError(UserNotFound));
      }
      r := Update(ObjectId(user.value.id), dto);
    }
  }

  // ------------------------------------------------ invariants are kept

  lemma CreatePreservesInvariant(t: Table, dto: CreateUserDto)
    requires TableInvariant(t)
    ensures TableInvariant(CreateOutcome(t, dto).after)
  {
    var u := NewUser(dto, t.clock);
    if SchemaValid(u) && !Clashes(t.users, u) {
      var s := t.users + [u];
      forall i, j | 0 <= i < j < |s|
        ensures s[i].id != s[j].id && s[i].auth0Id != s[j].auth0Id && s[i].email != s[j].email
        ensures s[i].createdAt < s[j].createdAt
      {
        if j == |t.users| {
          assert s[i] == t.users[i];
        }
      }
    }
  }

  lemma UpdatePreservesInvariant(t: Table, id: RawId, dto: UpdateUserDto)
    requires TableInvariant(t)
    ensures TableInvariant(UpdateOutcome(t, id, dto).after)
  {
    if HasFields(dto) && id.ObjectId? && dto.email != Some("") {
      var k := IndexOfId(t.users, id.n);
      if k >= 0 {
        var u := Patch(t.users[k], dto, t.clock);
        if !Clashes(t.users, u) {
          var s := t.users[k := u];
          forall i, j | 0 <= i < j < |s|
            ensures s[i].id != s[j].id && s[i].auth0Id != s[j].auth0Id && s[i].email != s[j].email
          {
            if i == k {
              assert !(t.users[j].id != u.id && (t.users[j].auth0Id == u.auth0Id || t.users[j].email == u.email));
            } else if j == k {
              assert !(t.users[i].id != u.id && (t.users[i].auth0Id == u.auth0Id || t.users[i].email == u.email));
            }
          }
        }
      }
    }
  }

  // ------------------------------------------------------- create, update

  /** `create` stores `displayName` as null when it is absent or empty, `role` as
      'user' when it is absent or empty, and appends exactly one document, the
      newest, with a fresh id. */
  lemma CreateDefaults(t: Table, dto: CreateUserDto)
    requires TableInvariant(t)
    requires CreateOutcome(t, dto).result.Success?
    ensures var u := CreateOutcome(t, dto).result.value;
      && CreateOutcome(t, dto).after.users == t.users + [u]
      && u.auth0Id == dto.auth0Id && u.email == dto.email
      && (u.displayName == None <==> dto.displayName in {None, Some("")})
      && (u.displayName.Some? ==> u.displayName == dto.displayName)
      && (dto.role in {None, Some("")} ==> u.role == UserRole)
      && (forall v :: v in t.users ==> v.id != u.id && v.createdAt < u.createdAt)
  {
    var u := CreateOutcome(t, dto).result.value;
    forall v | v in t.users
      ensures v.id != u.id && v.createdAt < u.createdAt
    {
      var i :| 0 <= i < |t.users| && t.users[i] == v;
    }
  }

  /** The unique indexes: a second document with a stored `auth0Id` or `email`
      is refused and nothing is written. */
  lemma CreateRejectsDuplicate(t: Table, dto: CreateUserDto, v: User)
    requires TableInvariant(t) && v in t.users
    requires v.auth0Id == dto.auth0Id || v.email == dto.email
    ensures CreateOutcome(t, dto).result.Failure?
    ensures CreateOutcome(t, dto).after == t
  {
    var u := NewUser(dto, t.clock);
    var i :| 0 <= i < |t.users| && t.users[i] == v;
    if SchemaValid(u) {
      assert t.users[i].id != u.id;
      assert Clashes(t.users, u);
    }
  }

  /** With no defined field, `update` changes nothing and answers the stored
      document, or NotFound 'User not found' when there is none. */
  lemma UpdateWithoutFields(t: Table, id: RawId, dto: UpdateUserDto)
    requires !HasFields(dto)
    ensures UpdateOutcome(t, id, dto).after == t
    ensures UpdateOutcome(t, id, dto).result ==
      if FindById(t.users, id).Some? then Success(FindById(t.users, id).value)
      else Failure(NotFoundError(UserNotFound))
  {
  }

  /** With fields on a well-formed id that no document has, `update` raises
      NotFound and changes nothing. */
  lemma UpdateMissingId(t: Table, n: nat, dto: UpdateUserDto)
    requires HasFields(dto) && dto.email != Some("")
    requires forall u :: u in t.users ==> u.id != n
    ensures UpdateOutcome(t, ObjectId(n), dto) == Write(Failure(NotFoundError(UserNotFound)), t)
  {
    assert forall i :: 0 <= i < |t.users| ==> t.users[i] in t.users;
  }

  /** With fields on a malformed id, `findByIdAndUpdate` fails the cast before
      any lookup: a CastError, not NotFound, and nothing changes. */
  lemma UpdateMalformedIdIsCastError(t: Table, text: string, dto: UpdateUserDto)
    requires HasFields(dto)
    ensures UpdateOutcome(t, Malformed(text), dto) == Write(Failure(CastError(CastFailed)), t)
  {
  }

  /** A successful `update` with fields writes exactly the defined fields of
      one document (and its `updatedAt`); every other field and every other
      document is unchanged. */
  lemma UpdateWritesOnlyDefinedFields(t: Table, id: RawId, dto: UpdateUserDto)
    requires HasFields(dto)
    requires UpdateOutcome(t, id, dto).result.Success?
    ensures id.ObjectId?
    ensures var w := UpdateOutcome(t, id, dto);
      var k := IndexOfId(t.users, id.n);
      && 0 <= k < |t.users|
      && |w.after.users| == |t.users|
      && (forall j :: 0 <= j < |t.users| && j != k ==> w.after.users[j] == t.users[j])
      && w.after.users[k] == w.result.value
      && w.result.value.displayName == (if dto.displayName.Some? then dto.displayName else t.users[k].displayName)
      && w.result.value.email == (if dto.email.Some? then dto.email.value else t.users[k].email)
      && w.result.value.(displayName := t.users[k].displayName, email := t.users[k].email, updatedAt := t.users[k].updatedAt)
         == t.users[k]
  {
  }

  /** No update path changes a `role`, an `auth0Id`, an `id` or a `createdAt`,
      nor adds or removes a document. */
  lemma UpdateKeepsIdentity(t: Table, id: RawId, dto: UpdateUserDto)
    ensures var after := UpdateOutcome(t, id, dto).after.users;
      && |after| == |t.users|
      && forall j :: 0 <= j < |t.users| ==>
           && after[j].role == t.users[j].role
           && after[j].auth0Id == t.users[j].auth0Id
           && after[j].id == t.users[j].id
           && after[j].createdAt == t.users[j].createdAt
  {
  }

  /** `updateAuth0UserInfo` is NotFound with no write for an unknown `auth0Id`,
      and otherwise exactly `update` on that user's id. */
  lemma UpdateAuth0UserInfoIsUpdate(t: Table, auth0Id: string, dto: UpdateUserDto)
    ensures FindByAuth0Id(t.users, auth0Id).None? ==>
      UpdateAuth0UserInfoOutcome(t, auth0Id, dto) == Write(Failure(NotFoundError(UserNotFound)), t)
    ensures FindByAuth0Id(t.users, auth0Id).Some? ==>
      UpdateAuth0UserInfoOutcome(t, auth0Id, dto) ==
      UpdateOutcome(t, ObjectId(FindByAuth0Id(t.users, auth0Id).value.id), dto)
  {
  }

  // ---------------------------------------------------------------- listing

  /** Exactly the stored documents that match are kept, in their order. */
  lemma {:induction false} FilterMembers(users: seq<User>, search: Option<string>, u: User)
    ensures u in Filter(users, search) <==> u in users && Matches(u, search)
  {
    if users != [] {
      FilterMembers(users[1..], search, u);
      assert users == [users[0]] + users[1..];
    }
  }

  lemma {:induction false} FilterKeepsCreationOrder(users: seq<User>, search: Option<string>)
    requires CreationOrdered(users)
    ensures CreationOrdered(Filter(users, search))
  {
    if users != [] {
      FilterKeepsCreationOrder(users[1..], search);
      var rest := Filter(users[1..], search);
      forall u | u in rest ensures users[0].createdAt < u.createdAt {
        FilterMembers(users[1..], search, u);
        var j :| 0 <= j < |users[1..]| && users[1..][j] == u;
        assert users[j + 1] == u;
      }
    }
  }

  lemma {:induction false} ReverseAt(s: seq<User>, i: int)
    requires 0 <= i < |s|
    ensures Reverse(s)[i] == s[|s| - 1 - i]
  {
    if i < |s| - 1 {
      ReverseAt(s[1..], i);
    }
  }

  lemma ReverseMembers(s: seq<User>, u: User)
    ensures u in Reverse(s) <==> u in s
  {
    if u in s {
      var i :| 0 <= i < |s| && s[i] == u;
      ReverseAt(s, |s| - 1 - i);
    }
    if u in Reverse(s) {
      var i :| 0 <= i < |s| && Reverse(s)[i] == u;
      ReverseAt(s, i);
    }
  }

  /** The most recent first: creation order reversed is strictly decreasing. */
  lemma ReverseIsNewestFirst(s: seq<User>)
    requires CreationOrdered(s)
    ensures forall i, j :: 0 <= i < j < |s| ==> Reverse(s)[i].createdAt > Reverse(s)[j].createdAt
  {
    forall i, j | 0 <= i < j < |s|
      ensures Reverse(s)[i].createdAt > Reverse(s)[j].createdAt
    {
      ReverseAt(s, i);
      ReverseAt(s, j);
    }
  }

  /** `page` and `limit` default to 1 and 10 when absent or 0. */
  lemma FindAllDefaults(users: seq<User>, f: UserFilters)
    requires f.page in {None, Some(0)} && f.limit in {None, Some(0)}
    ensures FindAll(users, f).page == 1 && FindAll(users, f).limit == 10
  {
  }

  /** At most `limit` users, `total` counts every match whatever the page, and
      every user returned is a stored document that matches the search. */
  lemma FindAllPage(users: seq<User>, f: UserFilters)
    ensures var r := FindAll(users, f);
      && r.page >= 1 && r.limit >= 1
      && |r.users| <= r.limit
      && r.total == |Filter(users, f.search)|
      && (forall u :: u in r.users ==> u in users && Matches(u, f.search))
  {
    var r := FindAll(users, f);
    var matches := Reverse(Filter(users, f.search));
    forall u | u in r.users ensures u in users && Matches(u, f.search) {
      assert u in matches;
      ReverseMembers(Filter(users, f.search), u);
      FilterMembers(users, f.search, u);
    }
  }

  /** Users on a page are newest first. */
  lemma FindAllNewestFirst(users: seq<User>, f: UserFilters)
    requires CreationOrdered(users)
    ensures var r := FindAll(users, f).users;
      forall i, j :: 0 <= i < j < |r| ==> r[i].createdAt > r[j].createdAt
  {
    FilterKeepsCreationOrder(users, f.search);
    var matches := Reverse(Filter(users, f.search));
    ReverseIsNewestFirst(Filter(users, f.search));
    var skip := (EffectivePage(f) - 1) * EffectiveLimit(f);
    var r := Window(matches, skip, EffectiveLimit(f));
    assert FindAll(users, f).users == r;
    forall i, j | 0 <= i < j < |r| ensures r[i].createdAt > r[j].createdAt {
      assert r[i] == matches[skip + i] && r[j] == matches[skip + j];
    }
  }

  /** `totalPages` is the ceiling of `total / limit`: enough pages to hold every
      match, and no page more. */
  lemma TotalPagesIsCeiling(total: nat, limit: nat)
    requires limit > 0
    ensures CeilDiv(total, limit) * limit >= total
    ensures total > 0 ==> (CeilDiv(total, limit) - 1) * limit < total
    ensures CeilDiv(total, limit) == 0 <==> total == 0
  {
    var q := CeilDiv(total, limit);
    var m := (total + limit - 1) % limit;
    assert total + limit - 1 == q * limit + m;
  }

  /** Pages tile the matches: entry `m` of page `p` is the match of rank
      `(p - 1) * limit + m`, so skipping `(page - 1) * limit` misses and repeats
      nothing. */
  lemma FindAllPageOf(users: seq<User>, search: Option<string>, p: nat, limit: nat, m: nat)
    requires p >= 1 && m < limit
    requires (p - 1) * limit + m < |Filter(users, search)|
    ensures var r := FindAll(users, UserFilters(Some(p), Some(limit), search)).users;
      m < |r| && r[m] == Reverse(Filter(users, search))[(p - 1) * limit + m]
  {
    var f := UserFilters(Some(p), Some(limit), search);
    var matches := Reverse(Filter(users, search));
    MulMonotone(0, p - 1, limit);
    var skip: nat := (p - 1) * limit;
    assert EffectivePage(f) == p && EffectiveLimit(f) == limit;
    assert FindAll(users, f).users == Window(matches, skip, limit);
    assert skip + m < |matches|;
  }

  /** A page past the last one is empty, not an error. */
  lemma FindAllPastLastPage(users: seq<User>, f: UserFilters)
    requires EffectivePage(f) > FindAll(users, f).totalPages
    ensures FindAll(users, f).users == []
  {
    var r := FindAll(users, f);
    TotalPagesIsCeiling(r.total, r.limit);
    var p := EffectivePage(f);
    assert (p - 1) * r.limit >= r.totalPages * r.limit by {
      assert p - 1 >= r.totalPages;
      MulMonotone(r.totalPages, p - 1, r.limit);
    }
  }

  lemma MulMonotone(a: nat, b: nat, c: nat)
    requires a <= b
    ensures a * c <= b * c
  {
  }

  /** Three users, newest last in the store: page 1 with limit 2 holds the two
      newest, total 3, 2 pages; page 2 holds the oldest one. */
  lemma ThreeUsersPaged(u1: User, u2: User, u3: User)
    ensures var r := FindAll([u1, u2, u3], UserFilters(Some(1), Some(2), None));
      r.users == [u3, u2] && r.total == 3 && r.page == 1 && r.limit == 2 && r.totalPages == 2
    ensures FindAll([u1, u2, u3], UserFilters(Some(2), Some(2), None)).users == [u1]
  {
    assert Filter([u1, u2, u3], None) == [u1, u2, u3] by {
      assert [u1, u2, u3][1..] == [u2, u3];
      assert [u2, u3][1..] == [u3];
      assert Filter([u3], None) == [u3];
      assert Filter([u2, u3], None) == [u2] + Filter([u3], None);
      assert Filter([u1, u2, u3], None) == [u1] + Filter([u2, u3], None);
    }
    assert Reverse([u1, u2, u3]) == [u3, u2, u1] by {
      assert [u1, u2, u3][1..] == [u2, u3];
      assert [u2, u3][1..] == [u3];
      assert Reverse([u3]) == [u3];
    }
  }

  /** The search is case-insensitive: a search string and its lower-case form
      select the same users. */
  lemma SearchIgnoresCase(u: User, search: string)
    ensures Matches(u, Some(search)) <==> Matches(u, Some(Lower(search)))
  {
    LowerIdempotent(search);
  }

  lemma {:induction false} LowerIdempotent(s: string)
    ensures Lower(Lower(s)) == Lower(s)
  {
    if s != [] {
      LowerIdempotent(s[1..]);
      assert Lower(s)[1..] == Lower(s[1..]);
    }
  }
}
