/**
 * app/Http/Controllers/BookingController.php: request validation, the
 * bookings table with its three mutating actions, and the two read actions
 * over it. The authenticated user is an explicit `user` parameter, the
 * clock an explicit `now`, and a parsed date an integer instant.
 */
module BookingController {
  import opened Domain
  import opened CheckBookingOverlap
  import opened Calendar
  import opened BookingQueries

  const MaxTitleLength := 255

  /** The nullable `description` input: not sent, sent as null, or a string. */
  datatype Description = Absent | Null | Given(text: string)

  /** A create or update request; `None` is a missing, null or unparseable value. */
  datatype BookingInput = BookingInput(
    title: Option<string>,
    description: Description,
    startTime: Option<int>,
    endTime: Option<int>,
    clientId: Option<int>)

  datatype Field = Title | StartTime | EndTime | ClientId

  /** The fields a successful validation hands on. */
  datatype Validated = Validated(
    title: string,
    description: Description,
    startTime: int,
    endTime: int,
    clientId: int)

  datatype Validation = Accepted(fields: Validated) | Rejected(errors: set<Field>)

  /** The four ways an action ends. */
  datatype Outcome = Ok | ValidationError(errors: set<Field>) | OverlapError | GenericError

  /** `required` refuses a string that PHP's `trim` reduces to "". */
  predicate Blank(s: string) {
    forall i :: 0 <= i < |s| ==> s[i] in " \t\n\r\U{0}\U{B}"
  }

  /** `required|string|max:255`. */
  predicate TitleOk(title: Option<string>) {
    title.Some? && !Blank(title.value) && |title.value| <= MaxTitleLength
  }

  /**
   * The fields whose rules fail. `after:start_time` can only fail when both
   * times are present: with no start time there is nothing to compare against.
   */
  function FieldErrors(input: BookingInput, clients: set<int>): (errors: set<Field>)
    ensures Title in errors <==> !TitleOk(input.title)
    ensures StartTime in errors <==> input.startTime.None?
    ensures EndTime in errors <==>
      (input.endTime.None? || (input.startTime.Some? && input.endTime.value <= input.startTime.value))
    ensures ClientId in errors <==> !(input.clientId.Some? && input.clientId.value in clients)
  {
    (if TitleOk(input.title) then {} else {Title})
    + (if input.startTime.Some? then {} else {StartTime})
    + (if input.endTime.None? || (input.startTime.Some? && input.endTime.value <= input.startTime.value)
       then {EndTime} else {})
    + (if input.clientId.Some? && input.clientId.value in clients then {} else {ClientId})
  }

  /** The `$request->validate([...])` call shared by `store` and `update`. */
  function Validate(input: BookingInput, clients: set<int>): (r: Validation)
    ensures r.Accepted? <==>
      && TitleOk(input.title)
      && input.startTime.Some? && input.endTime.Some?
      && input.startTime.value < input.endTime.value
      && input.clientId.Some? && input.clientId.value in clients
    ensures r.Accepted? ==> r.fields == Validated(input.title.value, input.description,
                                                  input.startTime.value, input.endTime.value,
                                                  input.clientId.value)
    ensures r.Rejected? ==> r.errors != {} && r.errors == FieldErrors(input, clients)
    ensures r.Rejected? ==> (Title in r.errors <==> !TitleOk(input.title))
    ensures r.Rejected? ==> (StartTime in r.errors <==> input.startTime.None?)
    ensures r.Rejected? ==> (EndTime in r.errors <==>
      (input.endTime.None? || (input.startTime.Some? && input.endTime.value <= input.startTime.value)))
    ensures r.Rejected? ==> (ClientId in r.errors <==> !(input.clientId.Some? && input.clientId.value in clients))
  {
    var errors := FieldErrors(input, clients);
    if errors == {} then
      assert Title !in errors && StartTime !in errors && EndTime !in errors && ClientId !in errors;
      Accepted(Validated(input.title.value, input.description, input.startTime.value,
                         input.endTime.value, input.clientId.value))
    else
      Rejected(errors)
  }

  /** `$validated['description'] ?? null`. */
  function StoredDescription(d: Description): (r: Option<string>)
    ensures r.Some? <==> d.Given?
    ensures d.Given? ==> r.value == d.text
  {
    match d
    case Given(s) => Some(s)
    case _ => None
  }

  /** The row `Booking::create` inserts; the owner is the caller, never the input. */
  function NewBooking(id: int, user: int, v: Validated, now: int): (b: Booking)
    ensures b.id == id && b.userId == user && b.createdAt == now
    ensures b.title == v.title && b.clientId == v.clientId
    ensures b.startTime == v.startTime && b.endTime == v.endTime
    ensures b.description == StoredDescription(v.description)
    ensures v.startTime < v.endTime ==> WellFormed(b)
  {
    Booking(id, user, v.clientId, v.title, StoredDescription(v.description), v.startTime, v.endTime, now)
  }

  /**
   * The row after `$booking->update(...)`: the submitted fields are written,
   * a description not sent is kept; id, owner and creation time stay.
   */
  function Revised(b: Booking, v: Validated): (r: Booking)
    ensures r.id == b.id && r.userId == b.userId && r.createdAt == b.createdAt
    ensures r.title == v.title && r.clientId == v.clientId
    ensures r.startTime == v.startTime && r.endTime == v.endTime
    ensures r.description == if v.description.Absent? then b.description else StoredDescription(v.description)
    ensures v.startTime < v.endTime ==> WellFormed(r)
  {
    var description := if v.description.Absent? then b.description else StoredDescription(v.description);
    b.(title := v.title, description := description, startTime := v.startTime,
       endTime := v.endTime, clientId := v.clientId)
  }

  /** The table's rows with ids in [0, n), in increasing id order, each once. */
  function RowsById(t: map<int, Booking>, n: int): (r: seq<Booking>)
    requires IdsConsistent(t)
    ensures forall b :: b in r ==> 0 <= b.id < n
    ensures forall b :: multiset(r)[b] == if 0 <= b.id < n && b.id in t && t[b.id] == b then 1 else 0
    ensures forall i, j :: 0 <= i < j < |r| ==> r[i].id < r[j].id
    decreases n
  {
    if n <= 0 then []
    else
      var front := RowsById(t, n - 1);
      if n - 1 in t then
        assert t[n - 1] !in front;
        front + [t[n - 1]]
      else
        front
  }

  /** Adding a row that meets no row of its owner keeps the table disjoint. */
  lemma InsertKeepsDisjoint(t: map<int, Booking>, k: int, b: Booking)
    requires Disjoint(t) && k !in t
    requires forall id :: id in t && t[id].userId == b.userId ==>
      !Intersects(t[id].startTime, t[id].endTime, b.startTime, b.endTime)
    ensures Disjoint(t[k := b])
  {
  }

  /** A row that passed `store`'s overlap check keeps the table disjoint. */
  lemma StoreKeepsDisjoint(t: map<int, Booking>, b: Booking)
    requires Disjoint(t) && AllWellFormed(t) && WellFormed(b) && b.id !in t
    requires !Handle(t, b.startTime, b.endTime, None, None, b.userId)
    ensures Disjoint(t[b.id := b])
  {
    HandleIsIntersection(t, b.startTime, b.endTime, None, None, b.userId);
    InsertKeepsDisjoint(t, b.id, b);
  }

  /**
   * A booking of the caller rewritten after `update`'s overlap check, which
   * excludes the booking itself, keeps the table disjoint.
   */
  lemma UpdateKeepsDisjoint(t: map<int, Booking>, id: int, b: Booking)
    requires Disjoint(t) && AllWellFormed(t) && IdsConsistent(t) && WellFormed(b)
    requires id in t && id != 0 && b.userId == t[id].userId
    requires !Handle(t, b.startTime, b.endTime, Some(id), None, b.userId)
    ensures Disjoint(t[id := b])
  {
    var rest := t - {id};
    ExcludedNeverWitness(t, id, b.startTime, b.endTime, None, b.userId);
    HandleIsIntersection(rest, b.startTime, b.endTime, None, None, b.userId);
    InsertKeepsDisjoint(rest, id, b);
    assert t[id := b] == rest[id := b];
  }

  /**
   * `update` treats the booking's own range as free: a range of the caller
   * that meets no other booking of the caller passes the check, however it
   * relates to the booking's old range.
   */
  lemma SelfUpdateSucceeds(t: map<int, Booking>, id: int, start: int, end: int, user: int)
    requires AllWellFormed(t) && IdsConsistent(t) && id in t && id != 0 && start <= end
    requires forall k :: k in t && k != id && t[k].userId == user ==>
      !Intersects(t[k].startTime, t[k].endTime, start, end)
    ensures !Handle(t, start, end, Some(id), None, user)
  {
    ExcludedNeverWitness(t, id, start, end, None, user);
    HandleIsIntersection(t - {id}, start, end, None, None, user);
  }

  /** Removing a row keeps the table disjoint. */
  lemma DestroyKeepsDisjoint(t: map<int, Booking>, id: int)
    requires Disjoint(t)
    ensures Disjoint(t - {id})
  {
  }

  /**
   * `update` checks the caller's bookings, not the owner's: rewriting
   * another user's booking can pass the check and still collide with that
   * user's other booking.
   */
  lemma ForeignUpdateCanBreakDisjoint()
    ensures var t := map[1 := Booking(1, 2, 1, "a", None, 0, 10, 0),
                         2 := Booking(2, 2, 1, "b", None, 20, 30, 0)];
            var v := Validated("a", Absent, 20, 30, 1);
            && Disjoint(t) && AllWellFormed(t) && IdsConsistent(t)
            && !Handle(t, v.startTime, v.endTime, Some(1), None, 1)
            && !Disjoint(t[1 := Revised(t[1], v)])
  {
    var t := map[1 := Booking(1, 2, 1, "a", None, 0, 10, 0),
                 2 := Booking(2, 2, 1, "b", None, 20, 30, 0)];
    var v := Validated("a", Absent, 20, 30, 1);
    var u := t[1 := Revised(t[1], v)];
    assert Intersects(u[1].startTime, u[1].endTime, u[2].startTime, u[2].endTime);
  }

  /** Every entry of a listing appears on some page. */
  lemma ListedOnSomePage(s: seq<Booking>, b: Booking)
    requires b in s
    ensures exists p :: p >= 1 && b in Page(s, p)
  {
    var i :| 0 <= i < |s| && s[i] == b;
    PageCovers(s, i);
    var p := i / PageSize + 1;
    assert Page(s, p)[i % PageSize] == b;
  }

  /** Entries of one page of a listing are entries of the listing. */
  lemma PageEntriesListed(s: seq<Booking>, page: int, b: Booking)
    requires b in Page(s, page)
    ensures b in s
  {
    var r := Page(s, page);
    var i :| 0 <= i < |r| && r[i] == b;
    assert s[Offset(page) + i] == b;
  }

  /** One page of a listing keeps the listing's order. */
  lemma PageSorted(s: seq<Booking>, page: int, o: Order)
    requires SortedBy(s, o)
    ensures SortedBy(Page(s, page), o)
  {
    var r := Page(s, page);
    forall i, j | 0 <= i < j < |r|
      ensures Key(r[i], o) <= Key(r[j], o)
    {
      assert r[i] == s[Offset(page) + i] && r[j] == s[Offset(page) + j];
    }
  }

  /** What one page of the week listing holds, in terms of the rows. */
  lemma WeekPageFacts(rows: seq<Booking>, user: int, t: int, page: int)
    ensures var r := Page(WeekListing(rows, user, t), page);
      && (forall b :: b in r ==>
            && multiset(rows)[b] > 0 && b.userId == user
            && StartOfWeek(t) <= b.startTime <= EndOfWeek(t))
      && (forall i, j :: 0 <= i < j < |r| ==> r[i].startTime <= r[j].startTime)
  {
    var listing := WeekListing(rows, user, t);
    var r := Page(listing, page);
    forall b | b in r
      ensures multiset(rows)[b] > 0 && b.userId == user && StartOfWeek(t) <= b.startTime <= EndOfWeek(t)
    {
      PageEntriesListed(listing, page, b);
      assert multiset(listing)[b] > 0;
    }
    PageSorted(listing, page, StartAsc);
    assert forall i, j :: 0 <= i < j < |r| ==> Key(r[i], StartAsc) <= Key(r[j], StartAsc);
  }

  /** The bookings table with the client ids it may reference. */
  class BookingTable {
    var bookings: map<int, Booking>
    var clients: set<int>
    var nextId: int

    ghost predicate Valid()
      reads this
    {
      && 1 <= nextId
      && IdsConsistent(bookings)
      && AllWellFormed(bookings)
      && (forall id :: id in bookings ==> 1 <= id < nextId)
    }

    constructor (clients: set<int>)
      ensures Valid()
      ensures bookings == map[] && this.clients == clients && nextId == 1
    {
      bookings := map[];
      this.clients := clients;
      nextId := 1;
    }

    /** The rows in id order, each exactly once. */
    function Rows(): (r: seq<Booking>)
      reads this
      requires Valid()
      ensures forall b :: multiset(r)[b] == if b.id in bookings && bookings[b.id] == b then 1 else 0
      ensures forall i, j :: 0 <= i < j < |r| ==> r[i].id < r[j].id
    {
      RowsById(bookings, nextId)
    }

    /** `index`: one page of the caller's bookings, newest first. */
    function Index(user: int, page: int): (r: seq<Booking>)
      reads this
      requires Valid()
      ensures |r| <= PageSize
      ensures forall b :: b in r ==> b.id in bookings && bookings[b.id] == b && b.userId == user
      ensures forall i, j :: 0 <= i < j < |r| ==> r[j].createdAt <= r[i].createdAt
    {
      var listing := IndexListing(Rows(), user);
      var r := Page(listing, page);
      assert forall b :: b in r ==> b in listing;
      r
    }

    /**
     * `getBookingsByWeeks`: `week` is the parsed date, `None` when it does not
     * parse (the 422 answer); otherwise one page of the caller's bookings
     * starting in that week, earliest first.
     */
    function GetBookingsByWeeks(user: int, week: Option<int>, page: int): (r: Option<seq<Booking>>)
      reads this
      requires Valid()
      ensures r.None? <==> week.None?
      ensures r.Some? ==> |r.value| <= PageSize
      ensures r.Some? ==> forall b :: b in r.value ==>
        && b.id in bookings && bookings[b.id] == b && b.userId == user
        && StartOfWeek(week.value) <= b.startTime <= EndOfWeek(week.value)
      ensures r.Some? ==> forall i, j :: 0 <= i < j < |r.value| ==> r.value[i].startTime <= r.value[j].startTime
    {
      match week
      case None => None
      case Some(t) =>
        WeekPageFacts(Rows(), user, t, page);
        Some(Page(WeekListing(Rows(), user, t), page))
    }

    /** Every booking of the caller is on some page of `index`. */
    lemma IndexListsEveryBooking(user: int, id: int)
      requires Valid() && id in bookings && bookings[id].userId == user
      ensures exists p :: p >= 1 && bookings[id] in Index(user, p)
    {
      var b := bookings[id];
      var listing := IndexListing(Rows(), user);
      assert multiset(listing)[b] == 1;
      ListedOnSomePage(listing, b);
      var p :| p >= 1 && b in Page(listing, p);
      assert Index(user, p) == Page(listing, p);
    }

    /** Every booking of the caller starting in the week is on some page. */
    lemma WeekListsEveryBooking(user: int, t: int, id: int)
      requires Valid() && id in bookings && bookings[id].userId == user
      requires StartOfWeek(t) <= bookings[id].startTime <= EndOfWeek(t)
      ensures exists p :: p >= 1 && bookings[id] in GetBookingsByWeeks(user, Some(t), p).value
    {
      var b := bookings[id];
      var listing := WeekListing(Rows(), user, t);
      assert multiset(listing)[b] == 1;
      ListedOnSomePage(listing, b);
      var p :| p >= 1 && b in Page(listing, p);
      assert GetBookingsByWeeks(user, Some(t), p).value == Page(listing, p);
    }

    /** `store`. */
    method Store(user: int, input: BookingInput, now: int) returns (o: Outcome)
      requires Valid()
      modifies this
      ensures Valid() && clients == old(clients)
      ensures var r := Validate(input, clients);
        if r.Rejected? then
          o == ValidationError(r.errors) && bookings == old(bookings) && nextId == old(nextId)
        else if Handle(old(bookings), r.fields.startTime, r.fields.endTime, None, None, user) then
          o == OverlapError && bookings == old(bookings) && nextId == old(nextId)
        else
          && o == Ok && nextId == old(nextId) + 1
          && bookings == old(bookings)[old(nextId) := NewBooking(old(nextId), user, r.fields, now)]
      ensures o == Ok ==> old(nextId) !in old(bookings) && |bookings| == |old(bookings)| + 1
      ensures Disjoint(old(bookings)) ==> Disjoint(bookings)
    {
      var r := Validate(input, clients);
      if r.Rejected? {
        return ValidationError(r.errors);
      }
      var v := r.fields;
      if Handle(bookings, v.startTime, v.endTime, None, None, user) {
        return OverlapError;
      }
      var b := NewBooking(nextId, user, v, now);
      if Disjoint(bookings) {
        StoreKeepsDisjoint(bookings, b);
      }
      bookings := bookings[nextId := b];
      nextId := nextId + 1;
      o := Ok;
    }

    /**
     * `update`: every failure but an overlap, a failed validation and a
     * missing id included, ends in the generic catch.
     */
    method Update(user: int, id: int, input: BookingInput) returns (o: Outcome)
      requires Valid()
      modifies this
      ensures Valid() && clients == old(clients) && nextId == old(nextId)
      ensures var r := Validate(input, clients);
        if r.Rejected? || id !in old(bookings) then
          o == GenericError && bookings == old(bookings)
        else if Handle(old(bookings), r.fields.startTime, r.fields.endTime, Some(id), None, user) then
          o == OverlapError && bookings == old(bookings)
        else
          o == Ok && bookings == old(bookings)[id := Revised(old(bookings)[id], r.fields)]
      ensures id in old(bookings) && old(bookings)[id].userId == user && Disjoint(old(bookings)) ==>
        Disjoint(bookings)
    {
      var r := Validate(input, clients);
      if r.Rejected? || id !in bookings {
        return GenericError;
      }
      var v := r.fields;
      if Handle(bookings, v.startTime, v.endTime, Some(id), None, user) {
        return OverlapError;
      }
      var b := Revised(bookings[id], v);
      if bookings[id].userId == user && Disjoint(bookings) {
        UpdateKeepsDisjoint(bookings, id, b);
      }
      bookings := bookings[id := b];
      o := Ok;
    }

    /** `destroy`: no owner check and no overlap check. */
    method Destroy(id: int) returns (o: Outcome)
      requires Valid()
      modifies this
      ensures Valid() && clients == old(clients) && nextId == old(nextId)
      ensures if id in old(bookings) then o == Ok && bookings == old(bookings) - {id}
              else o == GenericError && bookings == old(bookings)
      ensures Disjoint(old(bookings)) ==> Disjoint(bookings)
    {
      if id !in bookings {
        return GenericError;
      }
      bookings := bookings - {id};
      o := Ok;
    }
  }
}
