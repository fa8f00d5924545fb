/** The user controller: each handler either writes one JSON response or passes
    the service's error to `next`, never both. Success envelopes are
    `{status: 'success', data, pagination?}`; the handlers' own error envelope is
    `{status: 'error', message}`. */
module UserController {
  import opened Wrappers
  import opened Errors
  import opened UserModel
  import opened UserRepository
  import opened UserService

  datatype Pagination = Pagination(total: nat, page: nat, limit: nat, totalPages: nat)

  datatype Data = OneUser(user: User) | UserList(users: seq<User>)

  datatype Body = ErrorBody(message: string) | SuccessBody(data: Data, pagination: Option<Pagination>) {
    /** The envelope's `status` field. */
    function Status(): string {
      if ErrorBody? then "error" else "success"
    }
  }

  /** What a handler does: write a response, or call `next(error)`. */
  datatype Reply = Respond(httpStatus: int, body: Body) | Next(error: Error)

  /** The parts of the request body `updateCurrentUser` could see. */
  datatype UpdateBody = UpdateBody(displayName: Option<string>, email: Option<string>)

  /** The list query after `parseInt`; `None` is an absent or empty parameter. */
  datatype ListQuery = ListQuery(page: Option<nat>, limit: Option<nat>, search: Option<string>)

  const NotAuthenticated := "Not authenticated"

  /** A service result as the handlers turn it into a reply. */
  function UserReply(r: Result<User, Error>): (reply: Reply)
    ensures r.Success? <==> reply.Respond?
    ensures r.Success? ==> reply == Respond(200, SuccessBody(OneUser(r.value), None))
    ensures r.Failure? ==> reply == Next(r.error)
  {
    match r
    case Success(u) => Respond(200, SuccessBody(OneUser(u), None))
    case Failure(e) => Next(e)
  }

  /** `getCurrentUser`: 401 without an attached user, with no lookup; else the
      caller's own document, by the caller's own id. */
  function GetCurrentUser(users: seq<User>, caller: Option<User>): (reply: Reply)
    ensures caller.None? ==> reply == Respond(401, ErrorBody(NotAuthenticated))
    ensures caller.Some? ==>
      && (reply.Respond? <==> exists u :: u in users && u.id == caller.value.id)
      && (reply.Respond? ==>
            && reply.httpStatus == 200 && reply.body.SuccessBody? && reply.body.data.OneUser?
            && reply.body.data.user in users && reply.body.data.user.id == caller.value.id)
      && (reply.Next? ==> reply.error == NotFoundError(UserNotFound))
  {
    if caller.None? then Respond(401, ErrorBody(NotAuthenticated))
    else UserReply(FindUser(users, ObjectId(caller.value.id)))
  }

  /** `getUserById`: looks up `params.id` as given. */
  function GetUserById(users: seq<User>, paramsId: RawId): (reply: Reply)
    ensures reply.Respond? <==> FindById(users, paramsId).Some?
    ensures reply.Respond? ==> reply.body == SuccessBody(OneUser(FindById(users, paramsId).value), None)
    ensures reply.Next? ==> reply.error == NotFoundError(UserNotFound)
  {
    UserReply(FindUser(users, paramsId))
  }

  /** The DTO `updateCurrentUser` builds: only `displayName` is forwarded. */
  function ProfileUpdate(body: UpdateBody): (dto: UpdateUserDto)
    ensures dto.email.None? && dto.displayName == body.displayName
  {
    UpdateUserDto(body.displayName, None)
  }

  /** `updateCurrentUser` as a function of the store's state. */
  function UpdateCurrentUserOutcome(t: Table, caller: Option<User>, body: UpdateBody): (Reply, Table) {
    if caller.None? then (Respond(401, ErrorBody(NotAuthenticated)), t)
    else
      var w := UpdateOutcome(t, ObjectId(caller.value.id), ProfileUpdate(body));
      (UserReply(w.result), w.after)
  }

  method UpdateCurrentUser(store: UserStore, caller: Option<User>, body: UpdateBody) returns (reply: Reply)
    requires store.Valid()
    modifies store
    ensures store.Valid()
    ensures (reply, store.State()) == UpdateCurrentUserOutcome(old(store.State()), caller, body)
    ensures caller.None? ==> store.State() == old(store.State())
  {
    if caller.None? {
      return Respond(401, ErrorBody(NotAuthenticated));
    }
    var r := UpdateProfile(store, ObjectId(caller.value.id), ProfileUpdate(body));
    reply := UserReply(r);
  }

  /** An email in the body of a profile update is dropped: the outcome does not
      depend on it and no stored email changes. */
  lemma UpdateCurrentUserIgnoresEmail(t: Table, caller: Option<User>, b1: UpdateBody, b2: UpdateBody)
    requires b1.displayName == b2.displayName
    ensures UpdateCurrentUserOutcome(t, caller, b1) == UpdateCurrentUserOutcome(t, caller, b2)
    ensures var after := UpdateCurrentUserOutcome(t, caller, b1).1.users;
      |after| == |t.users| && forall j :: 0 <= j < |t.users| ==> after[j].email == t.users[j].email
  {
    if caller.Some? {
      var dto := ProfileUpdate(b1);
      var id := ObjectId(caller.value.id);
      if HasFields(dto) && UpdateOutcome(t, id, dto).result.Success? {
        UpdateWritesOnlyDefinedFields(t, id, dto);
      }
    }
  }

  /** The filters `listUsers` builds: page 1 and limit 10 when absent; `search`
      as given. */
  function ListFilters(q: ListQuery): (f: UserFilters)
    ensures f.page.Some? && f.limit.Some? && f.search == q.search
    ensures f.page.value == (if q.page.Some? then q.page.value else 1)
    ensures f.limit.value == (if q.limit.Some? then q.limit.value else 10)
  {
    UserFilters(
      Some(if q.page.Some? then q.page.value else 1),
      Some(if q.limit.Some? then q.limit.value else 10),
      q.search)
  }

  /** `listUsers`: 200 with the page of users as `data` and the four pagination
      numbers copied from the repository's answer. */
  function ListUsers(users: seq<User>, q: ListQuery): (reply: Reply)
    ensures reply.Respond? && reply.httpStatus == 200 && reply.body.Status() == "success"
    ensures reply.body.SuccessBody? && reply.body.data.UserList? && reply.body.pagination.Some?
    ensures var p := FindAll(users, ListFilters(q));
      && reply.body.data.users == p.users
      && reply.body.pagination.value == Pagination(p.total, p.page, p.limit, p.totalPages)
    ensures reply.body.pagination.value.total == |Filter(users, q.search)|
    ensures q.page.None? && q.limit.None? ==>
      reply.body.pagination.value.page == 1 && reply.body.pagination.value.limit == 10
  {
    var p := FindAll(users, ListFilters(q));
    Respond(200, SuccessBody(UserList(p.users), Some(Pagination(p.total, p.page, p.limit, p.totalPages))))
  }

  /** Every response a handler writes itself carries the matching envelope
      status: 'error' with 401, 'success' with 200. */
  lemma HandlerEnvelopes(t: Table, caller: Option<User>, id: RawId, q: ListQuery, body: UpdateBody)
    ensures forall reply ::
      reply in [GetCurrentUser(t.users, caller), GetUserById(t.users, id),
                UpdateCurrentUserOutcome(t, caller, body).0, ListUsers(t.users, q)]
      && reply.Respond? ==>
      (reply.httpStatus == 401 && reply.body.Status() == "error") || (reply.httpStatus == 200 && reply.body.Status() == "success")
  {
  }
}
