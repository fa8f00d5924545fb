/** The request-body validation middleware. The schema engine is an oracle: it
    returns the list of detail messages for every violation it finds (all of
    them, since it does not stop at the first), empty when the body is valid. */
module ValidationMiddleware {
  import opened Wrappers
  import opened Strings
  import opened Errors

  const Separator := ", "

  /** `validate(schema)` on a body whose violations the engine reports as
      `details`: `None` is `next()` with no argument, `Some(e)` is `next(e)`. */
  function Validate(details: seq<string>): (forwarded: Option<Error>)
    ensures forwarded.None? <==> details == []
    ensures forwarded.Some? ==> forwarded.value == ValidationError(Join(details, Separator))
  {
    if details == [] then None else Some(ValidationError(Join(details, Separator)))
  }

  /** The message names every violation: each detail occurs in it. */
  lemma MessageMentionsEveryDetail(details: seq<string>, k: int)
    requires 0 <= k < |details|
    ensures Validate(details).Some?
    ensures Contains(Validate(details).value.message, details[k])
  {
    JoinContainsPart(details, Separator, k);
  }

  /** The details appear in order: the message for the violations of two groups
      of fields is the first group's message, ', ', then the second's. */
  lemma MessageKeepsOrder(first: seq<string>, second: seq<string>)
    requires first != [] && second != []
    ensures Validate(first + second).value.message ==
      Validate(first).value.message + Separator + Validate(second).value.message
  {
    JoinAppend(first, second, Separator);
  }
}

/** The declared constraints of the two Joi schemas, as predicates on a body's
    field values. */
module UserValidation {
  import opened Wrappers
  import opened UserModel
  import opened UserRepository
  import opened UserController
  import opened Strings

  /** A JSON value as a field can hold it. */
  datatype Value = Str(s: string) | Int(i: int) | Fraction | Null | Other

  /** `updateUserSchema`: `displayName` is optional; when present it is a string
      whose JavaScript length (UTF-16 code units) is 2 to 255. */
  predicate UpdateUserSchemaAccepts(displayName: Option<Value>)
    ensures UpdateUserSchemaAccepts(displayName) && displayName.Some? ==>
      displayName.value.Str? && displayName.value.s != ""
    ensures displayName.Some? && !displayName.value.Str? ==> !UpdateUserSchemaAccepts(displayName)
  {
    displayName.None? || (displayName.value.Str? && 2 <= Utf16Length(displayName.value.s) <= 255)
  }

  /** `userPaginationSchema`: `page` an integer of at least 1, `limit` an integer
      from 1 to 100, `search` a string; each optional. */
  predicate PaginationSchemaAccepts(page: Option<Value>, limit: Option<Value>, search: Option<Value>)
    ensures PaginationSchemaAccepts(page, limit, search) ==>
      && (page.Some? ==> page.value.Int? && page.value.i != 0)
      && (limit.Some? ==> limit.value.Int? && limit.value.i != 0)
    ensures limit.Some? && limit.value.Int? && limit.value.i > 100 ==> !PaginationSchemaAccepts(page, limit, search)
  {
    && (page.None? || (page.value.Int? && page.value.i >= 1))
    && (limit.None? || (limit.value.Int? && 1 <= limit.value.i <= 100))
    && (search.None? || search.value.Str?)
  }

  /** The filters a query accepted by the pagination schema describes. */
  function AcceptedFilters(page: Option<Value>, limit: Option<Value>, search: Option<Value>): (f: UserFilters)
    requires PaginationSchemaAccepts(page, limit, search)
    ensures f.page.Some? <==> page.Some?
    ensures f.limit.Some? <==> limit.Some?
    ensures f.search.Some? <==> search.Some?
  {
    UserFilters(
      if page.Some? then Some(page.value.i as nat) else None,
      if limit.Some? then Some(limit.value.i as nat) else None,
      if search.Some? then Some(search.value.s) else None)
  }

  /** A query the pagination schema accepts is used as given (no defaulting
      kicks in for a present value) and never yields more than 100 users. */
  lemma AcceptedPaginationIsUsedAsGiven(users: seq<User>, page: Option<Value>, limit: Option<Value>, search: Option<Value>)
    requires PaginationSchemaAccepts(page, limit, search)
    ensures var r := FindAll(users, AcceptedFilters(page, limit, search));
      && (page.Some? ==> r.page == page.value.i)
      && (limit.Some? ==> r.limit == limit.value.i)
      && |r.users| <= 100
  {
    FindAllPage(users, AcceptedFilters(page, limit, search));
  }

  /** The part of a body the schema accepted that reaches the profile update. */
  function AcceptedBody(displayName: Option<Value>): (b: UpdateBody)
    requires UpdateUserSchemaAccepts(displayName)
    ensures b.email.None? && (b.displayName.Some? <==> displayName.Some?)
  {
    UpdateBody(if displayName.Some? then Some(displayName.value.s) else None, None)
  }

  /** Behind the update schema, a profile update that answers 200 with a new
      display name answers one of 2 to 255 characters. */
  lemma AcceptedProfileUpdateStoresValidName(t: Table, caller: Option<User>, displayName: Option<Value>)
    requires UpdateUserSchemaAccepts(displayName) && caller.Some? && displayName.Some?
    ensures var reply := UpdateCurrentUserOutcome(t, caller, AcceptedBody(displayName)).0;
      reply.Respond? ==>
        && reply.body.SuccessBody? && reply.body.data.OneUser?
        && reply.body.data.user.displayName.Some?
        && 2 <= Utf16Length(reply.body.data.user.displayName.value) <= 255
  {
    var dto := ProfileUpdate(AcceptedBody(displayName));
    var id := ObjectId(caller.value.id);
    if UpdateOutcome(t, id, dto).result.Success? {
      UpdateWritesOnlyDefinedFields(t, id, dto);
    }
  }

  /** The length bound counts UTF-16 code units, as Joi does: one emoji is two
      units long and passes the minimum of 2. */
  lemma OneEmojiIsLongEnough()
    ensures UpdateUserSchemaAccepts(Some(Str("\U{1F600}")))
  {
    assert "\U{1F600}"[1..] == "";
  }
}
