/**
 * The persisted entities the booking core works on: a booking row and the
 * closed time intervals it occupies. Timestamps are whole seconds.
 */
module Domain {

  datatype Option<+T> = None | Some(value: T)

  /** One row of the bookings table. `description` is nullable in the schema. */
  datatype Booking = Booking(
    id: int,
    userId: int,
    clientId: int,
    title: string,
    description: Option<string>,
    startTime: int,
    endTime: int,
    createdAt: int)

  /** The invariant the controller enforces on every row it writes. */
  predicate WellFormed(b: Booking) {
    b.startTime < b.endTime
  }

  /** Closed intervals [s1, e1] and [s2, e2] share at least one instant. */
  predicate Intersects(s1: int, e1: int, s2: int, e2: int) {
    s1 <= e2 && s2 <= e1
  }

  /** Every row is stored under its own id. */
  ghost predicate IdsConsistent(t: map<int, Booking>) {
    forall id :: id in t ==> t[id].id == id
  }

  ghost predicate AllWellFormed(t: map<int, Booking>) {
    forall id :: id in t ==> WellFormed(t[id])
  }

  /** No two distinct rows of the same user occupy intersecting intervals. */
  ghost predicate Disjoint(t: map<int, Booking>) {
    forall i, j ::
      i in t && j in t && i != j && t[i].userId == t[j].userId ==>
        !Intersects(t[i].startTime, t[i].endTime, t[j].startTime, t[j].endTime)
  }
}
