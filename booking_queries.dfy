/**
 * The read paths of the booking controller: filter the table's rows, order
 * them, and cut one page of ten.
 */
module BookingQueries {
  import opened Domain
  import opened Calendar

  const PageSize := 10

  /** `orderBy('created_at', 'desc')` and `orderBy('start_time')`. */
  datatype Order = CreatedDesc | StartAsc

  /** Both orders as an ascending integer key. */
  function Key(b: Booking, o: Order): int {
    match o
    case CreatedDesc => -b.createdAt
    case StartAsc => b.startTime
  }

  ghost predicate SortedBy(s: seq<Booking>, o: Order) {
    forall i, j :: 0 <= i < j < |s| ==> Key(s[i], o) <= Key(s[j], o)
  }

  /** Places `x` before the first row whose key is not smaller, so ties keep `x` first. */
  function Insert(x: Booking, s: seq<Booking>, o: Order): (r: seq<Booking>)
    requires SortedBy(s, o)
    ensures SortedBy(r, o)
    ensures multiset(r) == multiset(s) + multiset{x}
  {
    if s == [] then [x]
    else if Key(x, o) <= Key(s[0], o) then [x] + s
    else
      var tail := Insert(x, s[1..], o);
      assert s == [s[0]] + s[1..];
      assert forall k :: 0 <= k < |tail| ==> tail[k] in multiset(s[1..]) + multiset{x};
      [s[0]] + tail
  }

  /** A stable sort of the rows by the key of `o`. */
  function Sort(s: seq<Booking>, o: Order): (r: seq<Booking>)
    ensures SortedBy(r, o)
    ensures multiset(r) == multiset(s)
  {
    if s == [] then []
    else
      assert s == [s[0]] + s[1..];
      Insert(s[0], Sort(s[1..], o), o)
  }

  /** `where('user_id', user)`, keeping the rows' order. */
  function OwnedBy(rows: seq<Booking>, user: int): (r: seq<Booking>)
    ensures forall b :: multiset(r)[b] == if b.userId == user then multiset(rows)[b] else 0
  {
    if rows == [] then []
    else
      assert rows == [rows[0]] + rows[1..];
      (if rows[0].userId == user then [rows[0]] else []) + OwnedBy(rows[1..], user)
  }

  /** `whereBetween('start_time', [lo, hi])`, keeping the rows' order. */
  function StartingIn(rows: seq<Booking>, lo: int, hi: int): (r: seq<Booking>)
    ensures forall b :: multiset(r)[b] == if lo <= b.startTime <= hi then multiset(rows)[b] else 0
  {
    if rows == [] then []
    else
      assert rows == [rows[0]] + rows[1..];
      (if lo <= rows[0].startTime <= hi then [rows[0]] else []) + StartingIn(rows[1..], lo, hi)
  }

  /** The paginator's page number: anything below 1 reads as page 1. */
  function PageNumber(page: int): (p: int)
    ensures p >= 1
    ensures page >= 1 ==> p == page
    ensures page < 1 ==> p == 1
  {
    if page < 1 then 1 else page
  }

  function Offset(page: int): (k: nat) {
    (PageNumber(page) - 1) * PageSize
  }

  /** One page of at most ten consecutive entries of `s`. */
  function Page(s: seq<Booking>, page: int): (r: seq<Booking>)
    ensures |r| <= PageSize
    ensures forall i :: 0 <= i < |r| ==> Offset(page) + i < |s| && r[i] == s[Offset(page) + i]
  {
    var lo := Offset(page);
    if lo >= |s| then []
    else if lo + PageSize <= |s| then s[lo..lo + PageSize]
    else s[lo..]
  }

  /** Entry `i` of a listing is entry `i % 10` of page `i / 10 + 1`: pages lose nothing. */
  lemma PageCovers(s: seq<Booking>, i: int)
    requires 0 <= i < |s|
    ensures var p := i / PageSize + 1;
      i % PageSize < |Page(s, p)| && Page(s, p)[i % PageSize] == s[i]
  {
    var p := i / PageSize + 1;
    assert Offset(p) == i - i % PageSize;
  }

  /** The whole listing behind `index`: the user's rows, newest first. */
  function IndexListing(rows: seq<Booking>, user: int): (r: seq<Booking>)
    ensures SortedBy(r, CreatedDesc)
    ensures forall b :: multiset(r)[b] == if b.userId == user then multiset(rows)[b] else 0
  {
    Sort(OwnedBy(rows, user), CreatedDesc)
  }

  /**
   * The whole listing behind `getBookingsByWeeks`: the user's rows starting
   * between Monday 00:00:00 and Sunday 23:59:59 of the week of `t`, earliest first.
   */
  function WeekListing(rows: seq<Booking>, user: int, t: int): (r: seq<Booking>)
    ensures SortedBy(r, StartAsc)
    ensures forall b :: multiset(r)[b] == (
              if b.userId == user && StartOfWeek(t) <= b.startTime <= EndOfWeek(t)
              then multiset(rows)[b] else 0)
  {
    Sort(StartingIn(OwnedBy(rows, user), StartOfWeek(t), EndOfWeek(t)), StartAsc)
  }
}
