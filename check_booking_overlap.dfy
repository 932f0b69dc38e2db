/**
 * The overlap rule of app/Actions/CheckBookingOverlap.php: does some stored
 * booking of a user collide with a candidate range [start, end]?
 */
module CheckBookingOverlap {
  import opened Domain

  /** SQL `BETWEEN`: both bounds inclusive. */
  predicate Between(x: int, lo: int, hi: int) {
    lo <= x <= hi
  }

  /**
   * The three-clause test of one stored booking against the candidate. For a
   * booking and a candidate that both have start <= end the three clauses
   * together are exactly closed-interval intersection.
   */
  predicate Clauses(b: Booking, start: int, end: int): (r: bool)
    ensures b.startTime <= b.endTime && start <= end ==>
      (r <==> Intersects(b.startTime, b.endTime, start, end))
  {
    || Between(b.startTime, start, end)
    || Between(b.endTime, start, end)
    || (b.startTime < start && b.endTime > end)
  }

  /**
   * The `id != excludeId` narrowing applies only when the id is truthy:
   * a missing id and the id 0 exclude nothing.
   */
  predicate Excluded(b: Booking, excludeId: Option<int>): (r: bool)
    ensures r ==> excludeId.Some? && b.id == excludeId.value
    ensures excludeId == None || excludeId == Some(0) ==> !r
    ensures excludeId.Some? && excludeId.value != 0 ==> (r <==> b.id == excludeId.value)
  {
    excludeId.Some? && excludeId.value != 0 && b.id == excludeId.value
  }

  /** The user whose bookings are searched: the given one, else the caller. */
  function Owner(userId: Option<int>, currentUser: int): (owner: int)
    ensures userId.Some? ==> owner == userId.value
    ensures userId.None? ==> owner == currentUser
  {
    match userId
    case Some(u) => u
    case None => currentUser
  }

  /** A row the query would return. */
  predicate Matches(b: Booking, start: int, end: int, excludeId: Option<int>, owner: int) {
    b.userId == owner && Clauses(b, start, end) && !Excluded(b, excludeId)
  }

  /**
   * `CheckBookingOverlap::handle`: whether the narrowed query has a row. A
   * true answer always has a witness row of the searched user that is not
   * excluded; a user without rows never overlaps.
   */
  predicate Handle(table: map<int, Booking>, start: int, end: int,
                   excludeId: Option<int>, userId: Option<int>, currentUser: int): (r: bool)
    ensures r ==> exists id :: id in table && table[id].userId == Owner(userId, currentUser) &&
                               !Excluded(table[id], excludeId)
    ensures (forall id :: id in table ==> table[id].userId != Owner(userId, currentUser)) ==> !r
  {
    var owner := Owner(userId, currentUser);
    exists id :: id in table && Matches(table[id], start, end, excludeId, owner)
  }

  /** Hence, between two well-ordered ranges, the test is symmetric. */
  lemma ClausesSymmetric(b: Booking, c: Booking)
    requires b.startTime <= b.endTime && c.startTime <= c.endTime
    ensures Clauses(b, c.startTime, c.endTime) <==> Clauses(c, b.startTime, b.endTime)
  {
    assert Clauses(b, c.startTime, c.endTime) <==> Intersects(b.startTime, b.endTime, c.startTime, c.endTime);
    assert Clauses(c, b.startTime, b.endTime) <==> Intersects(c.startTime, c.endTime, b.startTime, b.endTime);
  }

  /** Table-level form: on well-formed rows, `Handle` is an intersection search. */
  lemma HandleIsIntersection(table: map<int, Booking>, start: int, end: int,
                             excludeId: Option<int>, userId: Option<int>, currentUser: int)
    requires AllWellFormed(table) && start <= end
    ensures var owner := Owner(userId, currentUser);
      Handle(table, start, end, excludeId, userId, currentUser) <==>
        exists id :: id in table && table[id].userId == owner && !Excluded(table[id], excludeId) &&
          Intersects(table[id].startTime, table[id].endTime, start, end)
  {
    var owner := Owner(userId, currentUser);
    forall id | id in table
      ensures Matches(table[id], start, end, excludeId, owner) <==>
        (table[id].userId == owner && !Excluded(table[id], excludeId) &&
         Intersects(table[id].startTime, table[id].endTime, start, end))
    {
      assert Clauses(table[id], start, end) <==>
        Intersects(table[id].startTime, table[id].endTime, start, end);
    }
  }

  /** Without an explicit user the caller's bookings are searched. */
  lemma DefaultsToCurrentUser(table: map<int, Booking>, start: int, end: int,
                              excludeId: Option<int>, currentUser: int)
    ensures Handle(table, start, end, excludeId, None, currentUser) ==
            Handle(table, start, end, excludeId, Some(currentUser), currentUser)
  {
  }

  /** Another user's booking never makes the answer true. */
  lemma ForeignBookingIgnored(table: map<int, Booking>, k: int, b: Booking, start: int, end: int,
                              excludeId: Option<int>, userId: Option<int>, currentUser: int)
    requires b.userId != Owner(userId, currentUser)
    ensures Handle(table[k := b], start, end, excludeId, userId, currentUser) ==>
            Handle(table, start, end, excludeId, userId, currentUser)
  {
    var owner := Owner(userId, currentUser);
    if Handle(table[k := b], start, end, excludeId, userId, currentUser) {
      var id :| id in table[k := b] && Matches(table[k := b][id], start, end, excludeId, owner);
      assert id != k;
      assert id in table && Matches(table[id], start, end, excludeId, owner);
    }
  }

  /** A user without bookings never overlaps. */
  lemma NoBookingsNoOverlap(table: map<int, Booking>, start: int, end: int,
                            excludeId: Option<int>, userId: Option<int>, currentUser: int)
    requires forall id :: id in table ==> table[id].userId != Owner(userId, currentUser)
    ensures !Handle(table, start, end, excludeId, userId, currentUser)
  {
  }

  /** A candidate identical to a stored booking of the same user overlaps it. */
  lemma ExactMatchOverlaps(table: map<int, Booking>, id: int, excludeId: Option<int>, currentUser: int)
    requires id in table && table[id].startTime <= table[id].endTime
    requires !Excluded(table[id], excludeId)
    requires table[id].userId == currentUser
    ensures Handle(table, table[id].startTime, table[id].endTime, excludeId, None, currentUser)
  {
    assert Matches(table[id], table[id].startTime, table[id].endTime, excludeId, currentUser);
  }

  /**
   * Touching counts: a booking that starts exactly at the candidate's end, or
   * ends exactly at its start, is reported.
   */
  lemma BoundaryTouchOverlaps(table: map<int, Booking>, id: int, start: int, end: int,
                              excludeId: Option<int>, currentUser: int)
    requires id in table && start <= end
    requires table[id].userId == currentUser && !Excluded(table[id], excludeId)
    requires table[id].startTime == end || table[id].endTime == start
    ensures Handle(table, start, end, excludeId, None, currentUser)
  {
    assert Matches(table[id], start, end, excludeId, currentUser);
  }

  /** Containment in either direction is reported. */
  lemma ContainmentOverlaps(table: map<int, Booking>, id: int, start: int, end: int,
                            excludeId: Option<int>, currentUser: int)
    requires id in table && table[id].userId == currentUser && !Excluded(table[id], excludeId)
    requires table[id].startTime <= table[id].endTime
    requires (table[id].startTime < start && end < table[id].endTime) ||
             (start < table[id].startTime && table[id].endTime < end)
    ensures Handle(table, start, end, excludeId, None, currentUser)
  {
    assert Matches(table[id], start, end, excludeId, currentUser);
  }

  /** `if ($excludeId)`: the id 0 behaves exactly like no id at all. */
  lemma ZeroExcludesNothing(table: map<int, Booking>, start: int, end: int,
                            userId: Option<int>, currentUser: int)
    ensures Handle(table, start, end, Some(0), userId, currentUser) ==
            Handle(table, start, end, None, userId, currentUser)
  {
  }

  /**
   * A truthy excluded id is never the witness: the answer is that of the
   * table without that row.
   */
  lemma ExcludedNeverWitness(table: map<int, Booking>, x: int, start: int, end: int,
                             userId: Option<int>, currentUser: int)
    requires x != 0 && IdsConsistent(table)
    ensures Handle(table, start, end, Some(x), userId, currentUser) ==
            Handle(table - {x}, start, end, None, userId, currentUser)
  {
    var owner := Owner(userId, currentUser);
    var rest := table - {x};
    if Handle(table, start, end, Some(x), userId, currentUser) {
      var id :| id in table && Matches(table[id], start, end, Some(x), owner);
      assert id in rest && Matches(rest[id], start, end, None, owner);
    }
    if Handle(rest, start, end, None, userId, currentUser) {
      var id :| id in rest && Matches(rest[id], start, end, None, owner);
      assert table[id].id == id;
      assert id in table && Matches(table[id], start, end, Some(x), owner);
    }
  }
}
