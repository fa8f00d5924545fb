# User directory and identity reconciliation, modelled in Dafny

This project models the core of a small REST backend. Users are synchronised with an
external identity provider (Auth0) and stored in a document collection. The model covers:

- the user collection: lookup by id and by `auth0Id`, create with defaulting, partial
  update, and paginated, filtered, newest-first listing (`UserRepository`, over the
  document shapes and schema invariants of `UserModel`);
- reconciliation of a verified identity with the stored user, meaning create on first
  sight, refresh of email and display name, or no write (`UserService`);
- the authentication middleware that turns verified claims into that identity and
  attaches the user, and the admin gate (`AuthMiddleware`);
- the controller handlers and their response envelopes (`UserController`);
- request-body validation, with the schema engine as an oracle that returns detail
  messages, and the declared field constraints (`ValidationMiddleware`, `UserValidation`);
- the boundary error handler (`ErrorMiddleware`);
- the management-token cache of the identity-provider client (`Auth0Service`);
- the concert table with soft delete (`ConcertService`).

Shared modules:

- `Wrappers`: Option and Result.
- `Strings`: `includes`, ASCII lower-casing, `join`, and `Utf16Length`, the JavaScript
  `length` that the schema's bounds count.
- `Seqs`: the linear search by key behind the lookups of a user by id and by `auth0Id`,
  and of a concert by id.
- `Errors`: the thrown values.

State that the code changes in place lives in classes:

- `UserStore` holds the documents and the store clock.
- `ManagementTokenCache` holds the cached token and its expiry.
- `ConcertStore` holds the concerts.

Each method that changes them, other than the constructors and
`ConcertStore.CreateConcert`, is tied by its `ensures` to a function of the old state:
`CreateOutcome`, `UpdateOutcome`, `UpdateAuth0UserInfoOutcome`, `ReconcileOutcome`,
`UpdateCurrentUserOutcome`, `GetManagementTokenStep` and `DeleteOutcome`. The lemmas
state the code's promises about those functions. `ConcertStore.CreateConcert` states
its new table directly in its `ensures`. Queries are functions of the stored sequence.

Modelling choices:

- The store keeps documents in insertion order. `createdAt` is drawn from a clock that
  only grows, so sorting on `createdAt` descending is the reverse of insertion order.
- An id as a caller passes it is `RawId`: a well-formed ObjectId or malformed text.
- `None` in a DTO is an absent (`undefined`) property. `None` in a stored `displayName`
  is a stored `null`.
- The schema's `required` string validator refuses the empty string. The unique indexes
  refuse a second document with the same `auth0Id` or `email`.
- `update` runs with `runValidators`, so an email of `''` is refused there too.
- When several store errors apply to one `update`, the model reports them in this order:
  cast, validation, not found, duplicate key. The cast, validation and duplicate-key
  errors reach the client as 500. Not found is an `AppError` and reaches it as 404.
- `utils/errors.ts` is not part of this model. Its `AppError` subclasses are modelled
  with the statuses 400, 401, 403 and 404, and with the inherited `name` "Error".

## Model

| member | source | states |
|---|---|---|
| `UserRepository.FindById` | src/repositories/user.repository.ts:7-14 | a user is returned only when its id is the one asked; "no user" exactly when the id is malformed or no document has it, never an error |
| `UserRepository.FindByAuth0Id` | src/repositories/user.repository.ts:17-19 | a stored document with that `auth0Id`, or "no record" exactly when none has it |
| `UserRepository.UserStore.Create` | src/repositories/user.repository.ts:22-31 | on success appends exactly the new document and advances the clock; on failure nothing changes; keeps the collection invariants |
| `UserRepository.CreateDefaults` | src/repositories/user.repository.ts:22-31 | `displayName` is stored as null exactly when absent or empty, `role` as 'user' when absent or empty; the new document has a fresh id and is the newest |
| `UserRepository.CreateRejectsDuplicate` | src/models/user.model.ts:45-54 | a second document with a stored `auth0Id` or `email` is refused and nothing is written |
| `UserRepository.CreatePreservesInvariant` | src/models/user.model.ts:43-66 | create keeps required keys, the role enumeration, unique ids, `auth0Id`s and emails, and creation order |
| `UserRepository.UserStore.Update` | src/repositories/user.repository.ts:34-65 | the result and new state are those of the update outcome; a failure changes nothing; the invariants are kept |
| `UserRepository.UpdatePreservesInvariant` | src/repositories/user.repository.ts:54-58 | update keeps every invariant of the collection, unique emails included |
| `UserRepository.UpdateWithoutFields` | src/repositories/user.repository.ts:45-52 | with no defined field nothing changes, and the result is the stored document or NotFound 'User not found' |
| `UserRepository.UpdateMissingId` | src/repositories/user.repository.ts:54-62 | fields (with an email that is not empty) on a well-formed id no document has raise NotFound 'User not found' and change nothing |
| `UserRepository.UpdateMalformedIdIsCastError` | src/repositories/user.repository.ts:54-58 | fields on a malformed id raise a CastError, not NotFound, and change nothing |
| `UserRepository.UpdateWritesOnlyDefinedFields` | src/repositories/user.repository.ts:35-58 | only the defined fields (and `updatedAt`) of the one target document change; every other field and document is unchanged |
| `UserRepository.UpdateKeepsIdentity` | src/models/user.model.ts:21-24 | no update path changes a role, an `auth0Id`, an id or a `createdAt`, or the number of documents |
| `UserRepository.UserStore.UpdateAuth0UserInfo` | src/repositories/user.repository.ts:68-76 | result and new state are those of the by-`auth0Id` outcome; the invariants are kept |
| `UserRepository.UpdateAuth0UserInfoIsUpdate` | src/repositories/user.repository.ts:68-76 | an unknown `auth0Id` is NotFound with no write; otherwise it equals `update` on that user's id |
| `UserRepository.FindAll` | src/repositories/user.repository.ts:79-109 | one page of the matching users: `page` and `limit` default to 1 and 10, at most `limit` users, `total` the number of matches, `totalPages` the ceiling of `total / limit` |
| `UserRepository.FilterMembers` | src/repositories/user.repository.ts:87-95 | the counted matches are exactly the stored documents that match the search |
| `UserRepository.SearchIgnoresCase` | src/repositories/user.repository.ts:87-91 | a search string and its lower-case form select the same users |
| `UserRepository.FindAllDefaults` | src/repositories/user.repository.ts:80-81 | page 1 and limit 10 when they are absent or 0 |
| `UserRepository.FindAllPage` | src/repositories/user.repository.ts:80-109 | at most `limit` users, all stored and matching; `total` counts every match whatever the page |
| `UserRepository.FindAllNewestFirst` | src/repositories/user.repository.ts:98-101 | users on a page are in strictly decreasing `createdAt` order |
| `UserRepository.TotalPagesIsCeiling` | src/repositories/user.repository.ts:108 | `totalPages` pages hold every match and one page fewer would not; 0 pages exactly when there is no match |
| `UserRepository.FindAllPageOf` | src/repositories/user.repository.ts:82-101 | entry `m` of page `p` is the match of rank `(p-1)*limit + m` in newest-first order, so skipping `(page-1)*limit` misses and repeats nothing |
| `UserRepository.FindAllPastLastPage` | src/repositories/user.repository.ts:82-101 | a page past the last is empty, not an error |
| `UserRepository.ThreeUsersPaged` | __tests__/services/user.services.test.ts:155-163 | three users, page 1 limit 2: the two newest, total 3, 2 pages; page 2 holds the oldest |
| `UserService.FindUser` | src/services/user.service.ts:8-16 | NotFound 'User not found' exactly when the repository has no such user, else that user |
| `UserService.FindOrCreateUser` | src/services/user.service.ts:24-52 | result and new state are those of the reconciliation outcome; the invariants are kept |
| `UserService.ReconcileCreatesUnseen` | src/services/user.service.ts:43-51 | an unseen `auth0Id` goes to create only: one document with the given `auth0Id` and email, the given name when non-empty (an absent or empty one is stored as null) and role 'user' when none is given; or create's own error with no write and no retry |
| `UserService.ReconcileUnchanged` | src/services/user.service.ts:29-40 | a stored user whose email and display name match is returned with no write |
| `UserService.ReconcileRefreshes` | src/services/user.service.ts:31-37 | when either field differs both are overwritten with the given values; id, `auth0Id`, role and the number of users stay |
| `UserService.ReconcilePreservesInvariant` | src/services/user.service.ts:24-52 | reconciliation never creates a second document for an `auth0Id`, and keeps the other invariants |
| `UserService.ReconcileStoresResult` | src/services/user.service.ts:24-47 | after a successful reconciliation, the document stored for the `auth0Id` is the one returned |
| `UserService.ReconcileResultEmail` | src/services/user.service.ts:24-52 | a successful reconciliation answers a user with the given email |
| `UserService.ReconcileKeepsOthersOut` | src/services/user.service.ts:24-52 | reconciling one identity never stores a document for another, absent `auth0Id` |
| `UserService.ReconcileIdempotent` | __tests__/services/user.services.test.ts:42-58 | repeating a reconciliation with a non-empty name writes nothing and returns the same user |
| `UserService.ReconcileEmptyNameWritesOnce` | src/services/user.service.ts:31-37 | with an empty name, create stores null; the first repeat writes `''` once, and the next repeat writes nothing |
| `UserService.UpdateProfile` | src/services/user.service.ts:55-57 | exactly the repository's update; a display-name-only change keeps the stored email |
| `AuthMiddleware.ResolveIdentity` | src/middleware/auth.middleware.ts:46-63 | the reconciled identity has the subject as `auth0Id`, always a display name, and never a role |
| `AuthMiddleware.ServiceAccountIgnoresClaims` | src/middleware/auth.middleware.ts:48-59 | a subject containing '@clients' gets 'api-service@yourcompany.com' and 'API Service' whatever the claims |
| `AuthMiddleware.PersonEmail` | src/middleware/auth.middleware.ts:62 | otherwise the email is the email claim, or '' when it is missing |
| `AuthMiddleware.PersonNamePrecedence` | src/middleware/auth.middleware.ts:63 | otherwise the name is the audience-namespaced claim, else `name`, else '' (empty claims fall through) |
| `AuthMiddleware.SyncUser` | src/middleware/auth.middleware.ts:40-78 | no subject: Unauthorized 'No authenticated user found' with no store access; else exactly one of "user attached, no error" or "reconciliation's error forwarded" |
| `AuthMiddleware.RequireAdmin` | src/middleware/auth.middleware.ts:80-85 | passes exactly for an attached admin; anything else, no user included, is Forbidden 'Admin access required' |
| `AuthMiddleware.LoginWithoutEmailClaimFails` | src/middleware/auth.middleware.ts:62-73 | a person without an email claim fails every login, first or later, with a store validation error; nothing is written and the client gets 500 |
| `AuthMiddleware.FirstLoginIsNotAdmin` | src/middleware/auth.middleware.ts:62-85 | a subject seen for the first time is created with role 'user' and the admin gate refuses it |
| `AuthMiddleware.SecondServiceAccountFails` | src/middleware/auth.middleware.ts:48-59 | once one client-credentials subject is stored, a second, different one fails on the unique email with a duplicate-key error, nothing is written, and the client gets 500 |
| `UserController.UserReply` | src/controllers/user.controller.ts:25-33 | a service success becomes 200 with the user as `data`; a service error goes to `next` unchanged |
| `UserController.GetCurrentUser` | src/controllers/user.controller.ts:16-34 | no caller: 401 'Not authenticated' with no lookup; otherwise 200 with the stored user exactly when one has the caller's id, else NotFound 'User not found' goes to `next` |
| `UserController.GetUserById` | src/controllers/user.controller.ts:37-48 | 200 with the user exactly when `params.id` names one; otherwise NotFound goes to `next` |
| `UserController.ProfileUpdate` | src/controllers/user.controller.ts:60-62 | the update carries the body's display name and never an email |
| `UserController.UpdateCurrentUser` | src/controllers/user.controller.ts:51-73 | no caller: 401 and no store change; otherwise the profile update of the caller's own id, answered or forwarded |
| `UserController.UpdateCurrentUserIgnoresEmail` | src/controllers/user.controller.ts:60-64 | an email in the body changes neither the outcome nor any stored email |
| `UserController.ListFilters` | src/controllers/user.controller.ts:78-82 | page 1 and limit 10 when the parameters are absent; search passed through |
| `UserController.ListUsers` | src/controllers/user.controller.ts:76-99 | always 200 'success', `data` the page of users, pagination copying total/page/limit/totalPages; total counts all matches |
| `UserController.HandlerEnvelopes` | src/controllers/user.controller.ts:16-99 | a response any of the four handlers writes is 401 with 'error' or 200 with 'success' |
| `ValidationMiddleware.Validate` | src/middleware/validation.middleware.ts:5-16 | `next()` with no argument exactly when there is no detail; otherwise one ValidationError whose message is the details joined by ', ' |
| `ValidationMiddleware.MessageMentionsEveryDetail` | src/middleware/validation.middleware.ts:7-11 | every violation's detail occurs in the message |
| `ValidationMiddleware.MessageKeepsOrder` | src/middleware/validation.middleware.ts:10-11 | details appear in order: the message for two groups is the first's, ', ', then the second's |
| `UserValidation.UpdateUserSchemaAccepts` | src/validations/user.validation.ts:3-5 | an optional `displayName` whose JavaScript length (UTF-16 code units) is 2 to 255: an accepted name is a non-empty string, and a present value that is not a string is refused |
| `UserValidation.PaginationSchemaAccepts` | src/validations/user.validation.ts:7-11 | optional `page` (an integer of at least 1), `limit` (1 to 100) and `search` (a string): accepted numbers are never 0, and a `limit` above 100 is refused |
| `UserValidation.AcceptedPaginationIsUsedAsGiven` | src/validations/user.validation.ts:7-11 | a query the pagination schema accepts is used as given and yields at most 100 users |
| `UserValidation.AcceptedProfileUpdateStoresValidName` | src/validations/user.validation.ts:3-5 | behind the update schema, a profile update that answers 200 stores a name of 2 to 255 UTF-16 code units |
| `UserValidation.OneEmojiIsLongEnough` | src/validations/user.validation.ts:4 | a single character outside the Basic Multilingual Plane is two code units long and meets the minimum of 2 |
| `ErrorMiddleware.HandleError` | src/middleware/error.middleware.ts:6-43 | one response, always with status 'error', and an HTTP status of 401, 500 or the AppError's own |
| `ErrorMiddleware.UnauthorizedNameWins` | src/middleware/error.middleware.ts:20-26 | an error named 'UnauthorizedError' is 401 'Invalid token' whatever its message, even when it is an AppError |
| `ErrorMiddleware.AppErrorPassesThrough` | src/middleware/error.middleware.ts:29-35 | any other AppError answers its own status and message |
| `ErrorMiddleware.NotFoundMapsTo404` | src/middleware/error.middleware.ts:29-35 | NotFound 'User not found' answers 404 'User not found' |
| `ErrorMiddleware.UnexpectedErrorDoesNotLeak` | src/middleware/error.middleware.ts:38-42 | every other error is 500 'Internal server error', whatever its own message |
| `Auth0Service.ManagementTokenCache.constructor` | src/services/auth0.service.ts:24-25 | no cached token and expiry 0 |
| `Auth0Service.ManagementTokenCache.GetManagementToken` | src/services/auth0.service.ts:49-76 | result, fetch and new cache are those of the cache step; the returned token is the stored one; a failure leaves the cache as it was |
| `Auth0Service.FetchesExactlyWhenStale` | src/services/auth0.service.ts:51-54 | no fetch exactly when the cached token is non-empty and `now < tokenExpiresAt` |
| `Auth0Service.ReturnsStoredToken` | src/services/auth0.service.ts:52-71 | the returned token is always the one the cache then holds |
| `Auth0Service.FailedFetchKeepsCache` | src/services/auth0.service.ts:72-75 | a failed fetch raises 'Failed to get Auth0 management token' and changes nothing |
| `Auth0Service.InitiallyEmpty` | src/services/auth0.service.ts:24-25 | the first call after start-up fetches |
| `Auth0Service.ReusedUntilExpiry` | src/services/auth0.service.ts:51-69 | after a fetch at `now`, every call before `now + expires_in*800` gets that token without fetching |
| `Auth0Service.EmptyTokenRefetched` | src/services/auth0.service.ts:52 | an empty token is never reused |
| `ConcertService.ConcertStore.CreateConcert` | src/services/concert.service.ts:16-44 | 400 'A concert at this location and time already exists' exactly when some concert, deleted or not, has that location and date; otherwise one record with the given fields is added |
| `ConcertService.GetConcerts` | src/services/concert.service.ts:50-59 | sorted by ascending date and a permutation of the concerts whose `deletedAt` is null |
| `ConcertService.SortByDateCorrect` | src/services/concert.service.ts:55-57 | the date sort returns a sorted permutation of its input |
| `ConcertService.GetConcertsExactlyLive` | src/services/concert.service.ts:50-58 | a concert is listed exactly when it is stored and not deleted |
| `ConcertService.GetConcertById` | src/services/concert.service.ts:66-76 | the concert with that id whether deleted or not; 404 'Concert not found' exactly when none has it |
| `ConcertService.ConcertStore.DeleteConcertById` | src/services/concert.service.ts:83-98 | result and new table are those of the delete outcome; ids and slots stay unique |
| `ConcertService.DeleteOnlyStamps` | src/services/concert.service.ts:83-98 | missing id: 404 and no change; otherwise only that concert's `deletedAt` becomes `now`, even if it was set, and the record stays |
| `ConcertService.DeletedStillFoundNotListed` | src/services/concert.service.ts:50-98 | a deleted concert is still found by id but no longer listed |
| `ConcertService.CreatedIsListed` | src/services/concert.service.ts:35-58 | a concert added without `deletedAt` appears in the listing |

## Behaviour of the code worth knowing

Each item names what a reader might expect and what the code does. The model follows the
code.

- One might expect two racing first logins of the same subject to both end with that one
  user. There is no conflict-retry in `findOrCreateUser`: the loser's duplicate-key error
  on create is the result, and nothing re-fetches the winner
  (src/services/user.service.ts:43-51).
- One might expect a request with no attached user to be answered 401 Unauthorized.
  `requireAdmin` answers it 403 Forbidden (src/middleware/auth.middleware.ts:81).
- One might expect the user listing to cap `limit` at 100. The list route does not run
  the pagination schema (src/routes/user.routes.ts:21), so `limit` is not capped
  there. `UserValidation.AcceptedPaginationIsUsedAsGiven` states what the schema would
  guarantee.
- One might expect a token without an email claim to log in with an empty email. It
  resolves to `''`, which the schema's `required` validator refuses. A first login
  therefore fails on create. Every later login of an existing user fails too: `''`
  differs from the stored email, so reconciliation calls `update`, whose validators
  refuse it. The client gets 500 each time (`AuthMiddleware.LoginWithoutEmailClaimFails`).
- One might expect every client-credentials subject to get its own user. All of them
  resolve to the same email, 'api-service@yourcompany.com'
  (src/middleware/auth.middleware.ts:48-59), which the unique index on `email` holds
  (src/models/user.model.ts:50-54). Once one is stored, a second, different subject can
  never log in: its create fails with a duplicate key and the client gets 500
  (`AuthMiddleware.SecondServiceAccountFails`).
- One might expect a login with unchanged claims never to write. An empty display name
  is stored as `null` on create, which differs from `''`, so the next login writes once
  more (`UserService.ReconcileEmptyNameWritesOnce`).

## Left out

- JWT verification (`validateJwt`, key-set fetch, RS256) is an external library and
  cryptography. The verified claims are an input.
- The identity provider's HTTP calls (`getUserInfo`, `getUserDetailsById`,
  `assignRolesToUser`) and the service's `domain` and `audience` fields are network I/O.
  Only the token cache is modelled, and the token endpoint's answer is a parameter.
- Time is an integer parameter. `Date.now()` is the `now` of `GetManagementToken`, and
  `new Date()` is the `now` of `DeleteConcertById`.
- `ExpiryAfterFetch`: the floating-point `expires_in * 1000 * 0.8` is written as the
  integer `expires_in * 800`, so rounding of the original product is not modelled.
- `FindAll`: the search is matched as a literal substring, case-insensitive on ASCII
  letters only. Regular-expression metacharacters in the search and Unicode case folding
  are not modelled.
- `FindAll`: ties in `createdAt` cannot occur in the model, because the clock only grows.
  The store's order among equal timestamps is not modelled.
- `ListFilters`: `parseInt` on query strings is not modelled; the parsed numbers are
  inputs. NaN and negative numbers are out of scope, and an absent or empty parameter
  is `None`.
- The Joi engine is an oracle that returns the detail messages. Its message texts,
  unknown-key handling and type conversion are not modelled; only the declared
  constraints are.
- Concurrency: there is no first-login race handling and no single-flight around the
  token fetch, and each store operation is modelled as atomic.
- `UserService.findAllUsers` and `findByAuth0Id` pass the repository's answer through
  unchanged, so the model uses `FindAll` and `FindByAuth0Id` directly.
- The store never fails in the model: connection errors, time-outs and other driver
  failures are not modelled. `findById` catches every error (src/repositories/user.repository.ts:10-12),
  so such a failure would also read as "no user", not only a malformed id.
- Logging is not modelled. Express `req`, `res` and `next` appear only as the inputs and
  the `Reply` of each handler.
- The `toJSON` transform (`_id` to `id`) and `__v` are presentation only and are not
  modelled.
- `ConcertStore.CreateConcert`: constraints of the relational schema behind the concert
  table are not part of this model. Create fails only on the location-and-date check.
- Concert ids are natural numbers, not the store's string ids.
- The concert controller and its routes are thin glue and are not modelled.
- Bootstrapping, configuration, routes and scripts are not modelled. Neither are the
  Passport-based login files or the roles file, which depend on modules that are not
  part of this model.
