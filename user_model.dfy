/** The user document, the DTOs that reach the store, and the schema's
    invariants (required and unique keys, the role enumeration, timestamps). */
module UserModel {
  import opened Wrappers

  const UserRole := "user"
  const AdminRole := "admin"

  /** A stored user. `id` stands for the storage-generated ObjectId; `createdAt` and
      `updatedAt` are readings of the store's clock, a counter that only grows. A
      `displayName` of `None` is a stored `null`. */
  datatype User = User(
    id: nat,
    auth0Id: string,
    email: string,
    displayName: Option<string>,
    role: string,
    createdAt: nat,
    updatedAt: nat)

  /** What `create` is given; `None` is an absent (`undefined`) property. */
  datatype CreateUserDto = CreateUserDto(
    auth0Id: string,
    email: string,
    displayName: Option<string>,
    role: Option<string>)

  /** What `update` is given. It has no `role`, so no update path can write one. */
  datatype UpdateUserDto = UpdateUserDto(displayName: Option<string>, email: Option<string>)

  /** Listing filters; a page or limit of 0 behaves like an absent one. */
  datatype UserFilters = UserFilters(page: Option<nat>, limit: Option<nat>, search: Option<string>)

  datatype PaginatedUsers = PaginatedUsers(
    users: seq<User>,
    total: nat,
    page: nat,
    limit: nat,
    totalPages: nat)

  /** An id as a caller passes it: a well-formed ObjectId, or text that is not one. */
  datatype RawId = ObjectId(n: nat) | Malformed(text: string)

  /** The role enumeration of the schema. */
  predicate ValidRole(role: string) {
    role == UserRole || role == AdminRole
  }

  /** The schema's validators: `auth0Id` and `email` are required (a required
      string rejects the empty string) and `role` is one of the enumeration. */
  predicate SchemaValid(u: User) {
    u.auth0Id != "" && u.email != "" && ValidRole(u.role)
  }

  /** The collection's state: its documents in insertion order and the clock. */
  datatype Table = Table(users: seq<User>, clock: nat)

  ghost predicate UniqueIds(users: seq<User>) {
    forall i, j :: 0 <= i < j < |users| ==> users[i].id != users[j].id
  }

  /** The unique index on `auth0Id`. */
  ghost predicate UniqueAuth0Ids(users: seq<User>) {
    forall i, j :: 0 <= i < j < |users| ==> users[i].auth0Id != users[j].auth0Id
  }

  /** The unique index on `email`. */
  ghost predicate UniqueEmails(users: seq<User>) {
    forall i, j :: 0 <= i < j < |users| ==> users[i].email != users[j].email
  }

  /** Insertion order is creation order. */
  ghost predicate CreationOrdered(users: seq<User>) {
    forall i, j :: 0 <= i < j < |users| ==> users[i].createdAt < users[j].createdAt
  }

  /** Every id and timestamp was drawn from the clock before its current reading. */
  ghost predicate Stamped(t: Table) {
    forall i :: 0 <= i < |t.users| ==>
      t.users[i].id < t.clock && t.users[i].createdAt <= t.users[i].updatedAt < t.clock
  }

  ghost predicate TableInvariant(t: Table) {
    && (forall i :: 0 <= i < |t.users| ==> SchemaValid(t.users[i]))
    && UniqueIds(t.users)
    && UniqueAuth0Ids(t.users)
    && UniqueEmails(t.users)
    && CreationOrdered(t.users)
    && Stamped(t)
  }
}
