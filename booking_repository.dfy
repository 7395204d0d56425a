/** The derived queries over the bookings table. Each listing method of the
    repository is a WHERE clause on one of two roles (the booker, or the owner
    of the booked item) and one time or status criterion, ordered by start
    time, latest first. */
module BookingRepository {
  import opened Common
  import opened Entities
  import opened Seqs
  import opened Pagination
  import opened Queries

  /** Whose bookings are listed: `findAllByBookerId…` or `findAllByItemOwnerId…`. */
  datatype Role = Booker | ItemOwner

  /** The extra condition of a listing method: none (`…OrderByStartDesc`),
      `…StartBeforeAndEndAfter…`, `…EndBefore…`, `…StartAfter…` or `…Status…`. */
  datatype Criterion = Any | StartBeforeAndEndAfter | EndBefore | StartAfter | Status(status: BookingStatus)

  predicate OfUser(b: Booking, role: Role, userId: int)
  {
    match role
    case Booker => BookerId(b) == Some(userId)
    case ItemOwner => ItemOwnerId(b) == Some(userId)
  }

  /** The criterion with both time arguments bound to `now`; every
      comparison is strict, as in the derived query names. */
  predicate Meets(b: Booking, crit: Criterion, now: int)
  {
    match crit
    case Any => true
    case StartBeforeAndEndAfter => b.start < now && b.end > now
    case EndBefore => b.end < now
    case StartAfter => b.start > now
    case Status(s) => b.status == Some(s)
  }

  function StartDesc(b: Booking): int { -b.start }

  function StartAsc(b: Booking): int { b.start }

  /** The ten listing methods, lines 10-28 of the repository interface. */
  function FindAllOrderByStartDesc(bookings: map<int, Booking>, role: Role, userId: int,
                                   crit: Criterion, now: int, page: Page): (r: seq<Booking>)
    ensures forall b :: b in r ==> b in bookings.Values && OfUser(b, role, userId) && Meets(b, crit, now)
    ensures page.Unpaged? ==>
      forall id :: id in bookings && OfUser(bookings[id], role, userId) && Meets(bookings[id], crit, now)
        ==> bookings[id] in r
    ensures forall i, j :: 0 <= i < j < |r| ==> r[i].start >= r[j].start
  {
    Select(bookings, b => OfUser(b, role, userId) && Meets(b, crit, now), StartDesc, page)
  }

  /** Every filtered listing is the ALL listing of the same user with the
      criterion applied, in the same order. */
  lemma FilteredWithinAll(bookings: map<int, Booking>, role: Role, userId: int, crit: Criterion, now: int)
    ensures FindAllOrderByStartDesc(bookings, role, userId, crit, now, Unpaged) ==
      Filter(FindAllOrderByStartDesc(bookings, role, userId, Any, now, Unpaged), b => Meets(b, crit, now))
  {
    SelectNarrowed(bookings, b => OfUser(b, role, userId) && Meets(b, Any, now),
      b => Meets(b, crit, now), b => OfUser(b, role, userId) && Meets(b, crit, now), StartDesc);
  }

  /** A booking starting exactly now is neither current nor future; one
      ending exactly now is neither current nor past. */
  lemma BoundariesExcluded(b: Booking, now: int)
    ensures b.start == now ==> !Meets(b, StartBeforeAndEndAfter, now) && !Meets(b, StartAfter, now)
    ensures b.end == now ==> !Meets(b, StartBeforeAndEndAfter, now) && !Meets(b, EndBefore, now)
  {
  }

  /** `findAllByItemIdOrderByStart`: one item's bookings, earliest first. */
  function FindAllByItemIdOrderByStart(bookings: map<int, Booking>, itemId: int): (r: seq<Booking>)
    ensures forall b :: b in r ==> b in bookings.Values && ItemId(b) == Some(itemId)
    ensures forall id :: id in bookings && ItemId(bookings[id]) == Some(itemId) ==> bookings[id] in r
    ensures forall i, j :: 0 <= i < j < |r| ==> r[i].start <= r[j].start
  {
    Select(bookings, b => ItemId(b) == Some(itemId), StartAsc, Unpaged)
  }

  /** `findAllByItemIdAndBookerIdAndEndBeforeOrderByStartDesc`: the finished
      bookings of one item by one booker, whatever their status. */
  function FindFinishedByItemAndBooker(bookings: map<int, Booking>, itemId: int, userId: int, now: int)
    : (r: seq<Booking>)
    ensures forall b :: b in r ==>
      b in bookings.Values && ItemId(b) == Some(itemId) && BookerId(b) == Some(userId) && b.end < now
    ensures forall id ::
      (id in bookings && ItemId(bookings[id]) == Some(itemId) &&
       BookerId(bookings[id]) == Some(userId) && bookings[id].end < now) ==> bookings[id] in r
    ensures forall i, j :: 0 <= i < j < |r| ==> r[i].start >= r[j].start
  {
    Select(bookings, b => ItemId(b) == Some(itemId) && BookerId(b) == Some(userId) && b.end < now,
      StartDesc, Unpaged)
  }

  /** The finished-booking query ignores status: a rejected booking that has
      ended still counts. */
  lemma FinishedIgnoresStatus(bookings: map<int, Booking>, id: int, itemId: int, userId: int, now: int)
    requires id in bookings && bookings[id].status == Some(REJECTED)
    requires ItemId(bookings[id]) == Some(itemId) && BookerId(bookings[id]) == Some(userId)
    requires bookings[id].end < now
    ensures FindFinishedByItemAndBooker(bookings, itemId, userId, now) != []
  {
    assert bookings[id] in FindFinishedByItemAndBooker(bookings, itemId, userId, now);
  }
}
