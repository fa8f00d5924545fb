/** The concert table with soft delete: create refuses a second concert at the
    same location and date (deleted ones included), listing shows the concerts
    not deleted in ascending date order, lookup ignores deletion, and delete only
    stamps `deletedAt`. Dates are integer timestamps; the clock reading used by
    delete is a parameter. */
module ConcertService {
  import opened Wrappers
  import opened Seqs

  datatype Concert = Concert(
    id: nat,
    title: string,
    location: string,
    date: int,
    maxSeats: int,
    status: string,
    deletedAt: Option<int>)

  /** An error that carries an HTTP status. */
  datatype ApiError = ApiError(statusCode: int, message: string)

  const DuplicateConcert := "A concert at this location and time already exists"
  const ConcertNotFound := "Concert not found"

  // ---------------------------------------------------------------- queries

  predicate SameSlot(c: Concert, location: string, date: int) {
    c.location == location && c.date == date
  }

  /** `findFirst({location, date})`, which does not look at `deletedAt`. */
  predicate SlotTaken(concerts: seq<Concert>, location: string, date: int) {
    exists i | 0 <= i < |concerts| :: SameSlot(concerts[i], location, date)
  }

  /** Position of the concert whose id is `id`, or -1. */
  function IndexOfConcert(concerts: seq<Concert>, id: nat): int {
    IndexOfKey(concerts, (c: Concert) => c.id, id)
  }

  /** `getConcertById`: found whether deleted or not; 404 when absent. */
  function GetConcertById(concerts: seq<Concert>, id: nat): (r: Result<Concert, ApiError>)
    ensures r.Success? <==> exists c :: c in concerts && c.id == id
    ensures r.Success? ==> r.value in concerts && r.value.id == id
    ensures r.Failure? ==> r.error == ApiError(404, ConcertNotFound)
  {
    var k := IndexOfConcert(concerts, id);
    if k < 0 then Failure(ApiError(404, ConcertNotFound)) else Success(concerts[k])
  }

  /** The concerts whose `deletedAt` is null, in table order. */
  function Live(concerts: seq<Concert>): seq<Concert> {
    if concerts == [] then []
    else (if concerts[0].deletedAt.None? then [concerts[0]] else []) + Live(concerts[1..])
  }

  predicate SortedByDate(s: seq<Concert>) {
    forall i, j :: 0 <= i < j < |s| ==> s[i].date <= s[j].date
  }

  function InsertByDate(c: Concert, s: seq<Concert>): seq<Concert> {
    if s == [] then [c]
    else if c.date <= s[0].date then [c] + s
    else [s[0]] + InsertByDate(c, s[1..])
  }

  function SortByDate(s: seq<Concert>): seq<Concert> {
    if s == [] then [] else InsertByDate(s[0], SortByDate(s[1..]))
  }

  /** `getConcerts`: the concerts not deleted, ordered by date ascending. */
  function GetConcerts(concerts: seq<Concert>): (r: seq<Concert>)
    ensures SortedByDate(r)
    ensures multiset(r) == multiset(Live(concerts))
  {
    SortByDateCorrect(Live(concerts));
    SortByDate(Live(concerts))
  }

  // ------------------------------------------------------ the sort's proof

  lemma {:induction false} InsertByDateCorrect(c: Concert, s: seq<Concert>)
    requires SortedByDate(s)
    ensures SortedByDate(InsertByDate(c, s))
    ensures multiset(InsertByDate(c, s)) == multiset(s) + multiset{c}
  {
    InsertByDatePermutes(c, s);
    InsertByDateSorted(c, s);
  }

  lemma {:induction false} InsertByDatePermutes(c: Concert, s: seq<Concert>)
    ensures multiset(InsertByDate(c, s)) == multiset(s) + multiset{c}
  {
    if s != [] && c.date > s[0].date {
      InsertByDatePermutes(c, s[1..]);
      assert s == [s[0]] + s[1..];
    }
  }

  lemma {:induction false} InsertByDateMembers(c: Concert, s: seq<Concert>, x: Concert)
    requires x in InsertByDate(c, s)
    ensures x == c || x in s
  {
    if s != [] && c.date > s[0].date && x != s[0] {
      InsertByDateMembers(c, s[1..], x);
    }
  }

  lemma {:induction false} InsertByDateSorted(c: Concert, s: seq<Concert>)
    requires SortedByDate(s)
    ensures SortedByDate(InsertByDate(c, s))
  {
    if s == [] {
    } else if c.date <= s[0].date {
      ConsSorted(c, s);
    } else {
      var rest := InsertByDate(c, s[1..]);
      InsertByDateSorted(c, s[1..]);
      forall x | x in rest ensures s[0].date <= x.date {
        InsertByDateMembers(c, s[1..], x);
        if x != c {
          var j :| 0 <= j < |s[1..]| && s[1..][j] == x;
          assert s[j + 1] == x;
        }
      }
      ConsSorted(s[0], rest);
    }
  }

  /** Putting an element no later than all others in front keeps a list sorted. */
  lemma ConsSorted(h: Concert, rest: seq<Concert>)
    requires SortedByDate(rest)
    requires forall x :: x in rest ==> h.date <= x.date
    ensures SortedByDate([h] + rest)
  {
    var s := [h] + rest;
    forall i, j | 0 <= i < j < |s| ensures s[i].date <= s[j].date {
      if i == 0 {
        assert s[j] == rest[j - 1];
      } else {
        assert s[i] == rest[i - 1] && s[j] == rest[j - 1];
      }
    }
  }

  lemma {:induction false} SortByDateCorrect(s: seq<Concert>)
    ensures SortedByDate(SortByDate(s))
    ensures multiset(SortByDate(s)) == multiset(s)
  {
    if s != [] {
      SortByDateCorrect(s[1..]);
      InsertByDateCorrect(s[0], SortByDate(s[1..]));
      assert s == [s[0]] + s[1..];
    }
  }

  lemma {:induction false} LiveMembers(concerts: seq<Concert>, c: Concert)
    ensures c in Live(concerts) <==> c in concerts && c.deletedAt.None?
  {
    if concerts != [] {
      LiveMembers(concerts[1..], c);
      assert concerts == [concerts[0]] + concerts[1..];
    }
  }

  /** The listing holds exactly the concerts that are not deleted. */
  lemma GetConcertsExactlyLive(concerts: seq<Concert>, c: Concert)
    ensures c in GetConcerts(concerts) <==> c in concerts && c.deletedAt.None?
  {
    SortByDateCorrect(Live(concerts));
    LiveMembers(concerts, c);
    assert c in GetConcerts(concerts) <==> c in multiset(GetConcerts(concerts));
    assert c in Live(concerts) <==> c in multiset(Live(concerts));
  }

  // ---------------------------------------------------------------- changes

  /** No two concerts share a location and date; ids are distinct and below the next id. */
  ghost predicate TableInvariant(concerts: seq<Concert>, nextId: nat) {
    && (forall i, j :: 0 <= i < j < |concerts| ==>
          concerts[i].id != concerts[j].id
          && !SameSlot(concerts[j], concerts[i].location, concerts[i].date))
    && (forall i :: 0 <= i < |concerts| ==> concerts[i].id < nextId)
  }

  /** `deleteConcertById` as a function of the table: 404 and no change when the
      id is absent; otherwise only that concert's `deletedAt` is (re)stamped. */
  function DeleteOutcome(concerts: seq<Concert>, id: nat, now: int): (Result<Concert, ApiError>, seq<Concert>) {
    var k := IndexOfConcert(concerts, id);
    if k < 0 then (Failure(ApiError(404, ConcertNotFound)), concerts)
    else
      var c := concerts[k].(deletedAt := Some(now));
      (Success(c), concerts[k := c])
  }

  class ConcertStore {
    var concerts: seq<Concert>
    var nextId: nat

    ghost predicate Valid()
      reads this
    {
      TableInvariant(concerts, nextId)
    }

    constructor ()
      ensures Valid() && concerts == []
    {
      concerts := [];
      nextId := 0;
    }

    /** `createConcert`. */
    method CreateConcert(title: string, location: string, date: int, maxSeats: int, status: string)
      returns (r: Result<Concert, ApiError>)
      requires Valid()
      modifies this
      ensures Valid()
      ensures SlotTaken(old(concerts), location, date) <==> r.Failure?
      ensures r.Failure? ==> r.error == ApiError(400, DuplicateConcert) && concerts == old(concerts) && nextId == old(nextId)
      ensures r.Success? ==>
        && r.value == Concert(old(nextId), title, location, date, maxSeats, status, None)
        && concerts == old(concerts) + [r.value]
        && nextId == old(nextId) + 1
    {
      if SlotTaken(concerts, location, date) {
        return Failure(ApiError(400, DuplicateConcert));
      }
      var c := Concert(nextId, title, location, date, maxSeats, status, None);
      concerts := concerts + [c];
      nextId := nextId + 1;
      r := Success(c);
    }

    /** `deleteConcertById`, stamping `deletedAt` with `now`. */
    method DeleteConcertById(id: nat, now: int) returns (r: Result<Concert, ApiError>)
      requires Valid()
      modifies this
      ensures Valid()
      ensures (r, concerts) == DeleteOutcome(old(concerts), id, now)
      ensures nextId == old(nextId)
    {
      var existing := GetConcertById(concerts, id);
      if existing.Failure? {
        return Failure(ApiError(404, ConcertNotFound));
      }
      var k := IndexOfConcert(concerts, id);
      var c := concerts[k].(deletedAt := Some(now));
      concerts := concerts[k := c];
      r := Success(c);
    }
  }

  /** Delete keeps the record: same length, the other concerts untouched, and
      the deleted one differs only in `deletedAt`, which is `now` even when it
      was already set. A missing id is 404 with no change. */
  lemma DeleteOnlyStamps(concerts: seq<Concert>, id: nat, now: int)
    ensures var (r, after) := DeleteOutcome(concerts, id, now);
      && |after| == |concerts|
      && (r.Failure? <==> forall c :: c in concerts ==> c.id != id)
      && (r.Failure? ==> r.error == ApiError(404, ConcertNotFound) && after == concerts)
      && (r.Success? ==> r.value.deletedAt == Some(now) && r.value in after && r.value.id == id)
      && forall i :: 0 <= i < |concerts| ==>
           after[i].(deletedAt := concerts[i].deletedAt) == concerts[i]
           && (concerts[i].id != id ==> after[i] == concerts[i])
  {
    var k := IndexOfConcert(concerts, id);
    if k < 0 {
      forall c | c in concerts ensures c.id != id {
        var i :| 0 <= i < |concerts| && concerts[i] == c;
      }
    } else {
      var after := DeleteOutcome(concerts, id, now).1;
      assert after[k] == concerts[k].(deletedAt := Some(now));
    }
  }

  /** A deleted concert leaves the listing but is still found by id. */
  lemma DeletedStillFoundNotListed(concerts: seq<Concert>, id: nat, now: int)
    requires DeleteOutcome(concerts, id, now).0.Success?
    ensures var (r, after) := DeleteOutcome(concerts, id, now);
      && GetConcertById(after, id) == Success(r.value)
      && r.value !in GetConcerts(after)
  {
    var (r, after) := DeleteOutcome(concerts, id, now);
    SameKeysSameIndex(concerts, after, (c: Concert) => c.id, id);
    GetConcertsExactlyLive(after, r.value);
  }

  /** A created concert is listed (its `deletedAt` is null). */
  lemma CreatedIsListed(concerts: seq<Concert>, c: Concert)
    requires c.deletedAt.None?
    ensures c in GetConcerts(concerts + [c])
  {
    GetConcertsExactlyLive(concerts + [c], c);
  }
}
