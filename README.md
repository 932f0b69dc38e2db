# Booking overlap rule and booking table, modelled in Dafny

This project models the core of a small booking-management application. Users
create, list, update and delete bookings. Each booking belongs to a user and
references a client. A user may not hold two bookings whose time ranges
overlap.

The model has five modules:

- `Domain` (`domain.dfy`): the `Booking` row, closed-interval intersection, and the
  table invariants. `Disjoint` says no two rows of one user intersect.
- `CheckBookingOverlap` (`check_booking_overlap.dfy`): the overlap predicate
  `Handle`. It has the three-clause test, scoping to one user, a default to the
  caller, and the `if ($excludeId)` self-exclusion. It also proves the lemmas
  that relate `Handle` to interval intersection.
- `Calendar` (`calendar.dfy`): the Monday 00:00:00 to Sunday 23:59:59 window
  around an instant, for integer seconds counted from 1970-01-01, which was a
  Thursday.
- `BookingQueries` (`booking_queries.dfy`): the read paths as functions. They
  filter by owner and by start time, sort stably by `created_at` descending or
  by `start_time` ascending, and cut pages of 10.
- `BookingController` (`booking_controller.dfy`): request validation, plus the
  class `BookingTable`. The class holds the bookings map, the set of client ids
  and the next auto-increment id. Its methods `Store`, `Update` and `Destroy`
  change the table. Its functions `Index` and `GetBookingsByWeeks` only read it.

The authenticated user is passed in as an explicit `user` parameter. The clock
value stored in `created_at` is an explicit `now` parameter. A date is already
parsed into an integer instant before it reaches the model.

Outcomes form the tagged result `Ok | ValidationError | OverlapError | GenericError`.

Three behaviours of the code are easy to miss, and the model keeps each of them:

- `update` calls `validate` inside a `try` whose `catch (\Exception)` also
  catches the validation exception. So a rejected update ends in
  `GenericError`, never in per-field errors.
- `update` and `destroy` have no ownership check. The overlap check inside
  `update` searches the caller's bookings, not the owner's.
  `ForeignUpdateCanBreakDisjoint` shows a concrete table where rewriting
  another user's booking passes that check and still breaks that owner's
  disjointness. For this reason `Update` promises to preserve `Disjoint` only
  when the caller owns the booking.
- The overlap test counts ranges that only touch at an endpoint, because SQL
  `BETWEEN` includes both bounds.

## Model

| member | source | states |
|---|---|---|
| CheckBookingOverlap.Handle | app/Actions/CheckBookingOverlap.php:9-29 | the query answer: a true answer always has a witness row of the searched user that is not excluded, and a user without rows never overlaps |
| CheckBookingOverlap.Clauses | app/Actions/CheckBookingOverlap.php:14-21 | for a stored booking and a candidate that both have start <= end, "start in range, or end in range, or strictly contains" holds exactly when the closed intervals intersect |
| CheckBookingOverlap.Excluded | app/Actions/CheckBookingOverlap.php:23-26 | a row is excluded only by a non-zero excluded id equal to its own id; no id and the id 0 exclude nothing |
| CheckBookingOverlap.Owner | app/Actions/CheckBookingOverlap.php:11 | the searched user is the given user id, or the current user when none is given |
| CheckBookingOverlap.ClausesSymmetric | app/Actions/CheckBookingOverlap.php:14-21 | between two well-ordered ranges the three-clause test gives the same answer in both directions |
| CheckBookingOverlap.HandleIsIntersection | app/Actions/CheckBookingOverlap.php:13-28 | on a table of well-formed rows, the predicate is true exactly when some non-excluded row of the searched user intersects the candidate |
| CheckBookingOverlap.DefaultsToCurrentUser | app/Actions/CheckBookingOverlap.php:11 | passing no user id gives the same answer as passing the current user |
| CheckBookingOverlap.ForeignBookingIgnored | app/Actions/CheckBookingOverlap.php:13 | adding another user's booking never turns the answer true |
| CheckBookingOverlap.NoBookingsNoOverlap | app/Actions/CheckBookingOverlap.php:28 | the answer is false when the searched user has no bookings |
| CheckBookingOverlap.ExactMatchOverlaps | app/Actions/CheckBookingOverlap.php:15 | a candidate identical to a non-excluded booking of the caller is reported |
| CheckBookingOverlap.BoundaryTouchOverlaps | app/Actions/CheckBookingOverlap.php:15-16 | a booking that starts exactly at the candidate's end, or ends exactly at its start, is reported |
| CheckBookingOverlap.ContainmentOverlaps | app/Actions/CheckBookingOverlap.php:15-20 | a booking strictly containing the candidate, or strictly inside it, is reported |
| CheckBookingOverlap.ZeroExcludesNothing | app/Actions/CheckBookingOverlap.php:23-26 | excluding id 0 gives the same answer as excluding nothing |
| CheckBookingOverlap.ExcludedNeverWitness | app/Actions/CheckBookingOverlap.php:23-26 | with a non-zero excluded id, the answer equals the answer on the table without that row |
| Calendar.StartOfWeek | app/Http/Controllers/BookingController.php:38 | the result is a Monday at 00:00:00, at or before the instant, and less than a week before it |
| Calendar.EndOfWeek | app/Http/Controllers/BookingController.php:39 | the result is a Sunday at 23:59:59, at or after the instant, and one second short of a week after the week's start |
| Calendar.StartOfWeekUnique | app/Http/Controllers/BookingController.php:38 | any Monday midnight less than a week before or at the instant is the week's start |
| Calendar.SameWeek | app/Http/Controllers/BookingController.php:38-39 | every instant inside the window has that same window |
| Calendar.TuesdayExample | app/Http/Controllers/BookingController.php:38-39 | Tuesday 2025-08-05 gives the window from Monday 2025-08-04 00:00:00 to Sunday 2025-08-10 23:59:59 |
| BookingQueries.Insert | app/Http/Controllers/BookingController.php:44 | inserting into a sorted listing keeps it sorted and adds exactly that one row |
| BookingQueries.Sort | app/Http/Controllers/BookingController.php:20 | the result is sorted by the order's key and is a permutation of the input |
| BookingQueries.OwnedBy | app/Http/Controllers/BookingController.php:42 | each row of the given user keeps its multiplicity, and every other row is dropped |
| BookingQueries.StartingIn | app/Http/Controllers/BookingController.php:43 | each row whose start lies in [lo, hi] keeps its multiplicity, and every other row is dropped |
| BookingQueries.PageNumber | app/Http/Controllers/BookingController.php:46 | a requested page of 1 or more is used as given, anything below 1 reads as page 1 |
| BookingQueries.Page | app/Http/Controllers/BookingController.php:20 | a page has at most 10 entries, and they are consecutive entries of the listing starting at the page's offset |
| BookingQueries.PageCovers | app/Http/Controllers/BookingController.php:46 | entry i of a listing is entry i mod 10 of page i div 10 + 1, so paging loses no entry |
| BookingQueries.IndexListing | app/Http/Controllers/BookingController.php:20 | the listing holds exactly the user's rows, with their multiplicities, newest `created_at` first |
| BookingQueries.WeekListing | app/Http/Controllers/BookingController.php:42-44 | the listing holds exactly the user's rows starting between Monday 00:00:00 and Sunday 23:59:59 of the week, earliest start first |
| BookingController.Validate | app/Http/Controllers/BookingController.php:65-71 | accepts exactly when the title is present, not blank and at most 255 characters, both times are present, the end is strictly after the start, and the client id is a known client; accepted fields copy the input; a rejection lists exactly the fields whose rule fails |
| BookingController.FieldErrors | app/Http/Controllers/BookingController.php:65-71 | field by field: the title fails when missing, blank or longer than 255 characters; the start fails when missing; the end fails when missing or not strictly after a present start; the client fails when missing or unknown |
| BookingController.StoredDescription | app/Http/Controllers/BookingController.php:82 | a sent description is stored as given, and a missing or null one as none |
| BookingController.NewBooking | app/Http/Controllers/BookingController.php:80-87 | the created row has the given id, the caller as owner, now as creation time and the validated fields, and is well-formed when the end is after the start |
| BookingController.Revised | app/Http/Controllers/BookingController.php:145 | the rewritten row keeps its id, owner and creation time, takes the validated title, client and times, keeps its description when none was sent, and is well-formed when the end is after the start |
| BookingController.SelfUpdateSucceeds | app/Http/Controllers/BookingController.php:140-143 | the self-excluding check passes for any range of the caller that meets no other booking of the caller, so moving a booking onto a range that overlaps only itself is accepted |
| BookingController.RowsById | app/Http/Controllers/BookingController.php:20 | the table's rows with ids below the bound, each exactly once, in increasing id order |
| BookingController.StoreKeepsDisjoint | app/Http/Controllers/BookingController.php:75-87 | inserting a well-formed row that passed the no-exclusion overlap check for its owner keeps the table disjoint |
| BookingController.UpdateKeepsDisjoint | app/Http/Controllers/BookingController.php:140-145 | rewriting a booking of its owner, after the self-excluding overlap check passed for that owner, keeps the table disjoint |
| BookingController.DestroyKeepsDisjoint | app/Http/Controllers/BookingController.php:108-109 | removing a row keeps the table disjoint |
| BookingController.ForeignUpdateCanBreakDisjoint | app/Http/Controllers/BookingController.php:140 | a concrete disjoint table where the caller's overlap check passes for another user's booking, yet rewriting that booking breaks disjointness |
| BookingController.BookingTable.Rows | app/Http/Controllers/BookingController.php:20 | every stored row appears exactly once, in increasing id order |
| BookingController.BookingTable.Index | app/Http/Controllers/BookingController.php:18-24 | at most 10 stored rows, all owned by the caller, newest `created_at` first |
| BookingController.BookingTable.GetBookingsByWeeks | app/Http/Controllers/BookingController.php:30-56 | an unparseable date gives the error answer; otherwise at most 10 stored rows of the caller, each starting inside the Monday-to-Sunday window, earliest start first |
| BookingController.BookingTable.IndexListsEveryBooking | app/Http/Controllers/BookingController.php:20 | every booking of the caller is on some page returned by `Index` |
| BookingController.BookingTable.WeekListsEveryBooking | app/Http/Controllers/BookingController.php:42-46 | every booking of the caller that starts in the week is on some page returned by `GetBookingsByWeeks` |
| BookingController.BookingTable.Store | app/Http/Controllers/BookingController.php:61-99 | a rejected input gives its field errors and an overlap gives `OverlapError`, and both leave the table unchanged; otherwise exactly one row is added under the next id, owned by the caller, with the validated fields, a missing or null description stored as none, and `created_at` set to now; disjointness is preserved |
| BookingController.BookingTable.Update | app/Http/Controllers/BookingController.php:126-155 | a failed validation or a missing id gives `GenericError`, and an overlap with another of the caller's bookings gives `OverlapError`; all three leave the table unchanged; otherwise only the target row changes, it gets the validated fields and keeps its id, owner and creation time, and a description that was not sent is kept; disjointness is preserved when the caller owns the booking |
| BookingController.BookingTable.Destroy | app/Http/Controllers/BookingController.php:104-121 | removes exactly the row with that id, with no owner or overlap check; a missing id gives `GenericError` and changes nothing; disjointness is preserved |

## Left out

- Date parsing: `Carbon::parse` and the `date` validation rule belong to a separate library. A date is an already-parsed integer `Option`. The `GetBookingsByWeeks` 422 answer is `None`, without its error message.
- Time zones and daylight saving: instants are local wall-clock seconds. Carbon's `endOfWeek` is 23:59:59.999999, which is the same closed bound at one-second resolution.
- Authentication: `Auth::id()` and `auth()->id()` become the explicit `user` parameter.
- HTTP responses are reduced to `Outcome`. This drops redirects, flash messages, `withInput`, the `cleared` flag, the JSON resource, eager loading of user and client, and the `links`/`meta` pagination envelope.
- `index` also returns every client ordered by name. Clients are modelled only as a set of ids, so that list is not part of this model.
- Store: persistence failures are not modelled, so `store`'s generic catch (lines 95-98) is never reached and `Store` never returns `GenericError`.
- Update: `$request->all()` mass-assigns every fillable field sent. The model writes only the validated fields, so owner or timestamp fields smuggled into the request are not modelled. `updated_at` is not modelled either.
- Validate: the framework middleware that trims strings and turns "" into null is not part of this model. `Blank` stands in for `required`'s own trim test.
- Validate: when `start_time` is missing, the `after:start_time` rule is taken to pass, because Laravel then compares against an empty value. For an end time of exactly 1970-01-01 00:00:00 (instant 0) that comparison fails instead, and the model does not track this.
- Ordering ties: SQL leaves the order of rows with equal sort keys unspecified. The model sorts stably from id order.
- A non-integer `page` query parameter is treated as page 1 by the paginator. The model takes the page as an integer.
- Concurrency: the check-then-write race between two simultaneous requests is out of scope, because every action here runs alone.
