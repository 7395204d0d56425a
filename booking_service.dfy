/** The booking life cycle: a booker asks for an item, the owner approves or
    rejects once, and either party may read the booking. The service works
    on a snapshot of the users, items and bookings tables and returns the
    booking it would save; the save itself is the caller's business. */
module BookingService {
  import opened Common
  import opened Entities
  import opened Seqs
  import opened Pagination
  import BookingMapper
  import opened BookingRepository
  import Queries

  /** The `state` query parameter of the two listing endpoints. */
  datatype State = All | Current | Past | Future | Waiting | Rejected

  function StateName(st: State): string
  {
    match st
    case All => "ALL"
    case Current => "CURRENT"
    case Past => "PAST"
    case Future => "FUTURE"
    case Waiting => "WAITING"
    case Rejected => "REJECTED"
  }

  /** The state names the `switch` accepts; anything else is a bad request. */
  function ParseState(s: string): (r: Result<State>)
    ensures r.Err? ==> r.error == BadRequest
  {
    if s == "ALL" then Ok(All)
    else if s == "CURRENT" then Ok(Current)
    else if s == "PAST" then Ok(Past)
    else if s == "FUTURE" then Ok(Future)
    else if s == "WAITING" then Ok(Waiting)
    else if s == "REJECTED" then Ok(Rejected)
    else Err(BadRequest)
  }

  /** Parsing and naming are inverse: every state's name parses back to it,
      and a string parses only if it is the name of what it parses to. */
  lemma ParseStateRoundTrip(st: State, s: string)
    ensures ParseState(StateName(st)) == Ok(st)
    ensures ParseState(s).Ok? ==> StateName(ParseState(s).value) == s
    ensures ParseState(s).Ok? <==> exists t :: StateName(t) == s
  {
    if exists t :: StateName(t) == s {
      var t :| StateName(t) == s;
      assert ParseState(StateName(t)) == Ok(t);
    }
  }

  /** The repository query each state selects. */
  function CriterionOf(st: State): Criterion
  {
    match st
    case All => Any
    case Current => StartBeforeAndEndAfter
    case Past => EndBefore
    case Future => StartAfter
    case Waiting => Status(WAITING)
    case Rejected => Status(REJECTED)
  }

  /** The booking `createBooking` would save, or the first guard that fails:
      an unknown user, an unknown item, the owner booking their own item
      (NotFound), an unavailable item, or an impossible period (BadRequest). */
  function CreateBooking(users: map<int, User>, items: map<int, Item>, userId: int,
                         dto: BookingDto, now: int): (r: Result<Booking>)
    ensures userId !in users ==> r == Err(NotFound)
    ensures userId in users && (dto.itemId.None? || dto.itemId.value !in items) ==> r == Err(NotFound)
    ensures (userId in users && dto.itemId.Some? && dto.itemId.value in items &&
             OwnerId(items[dto.itemId.value]) == Some(userId)) ==> r == Err(NotFound)
    ensures (userId in users && dto.itemId.Some? && dto.itemId.value in items &&
             OwnerId(items[dto.itemId.value]) != Some(userId) &&
             items[dto.itemId.value].available != Some(true)) ==> r == Err(BadRequest)
    ensures (r.Err? && userId in users && dto.itemId.Some? && dto.itemId.value in items &&
             OwnerId(items[dto.itemId.value]) != Some(userId) &&
             items[dto.itemId.value].available == Some(true)) ==> r.error == BadRequest
    ensures r.Ok? <==>
      userId in users && dto.itemId.Some? && dto.itemId.value in items &&
      OwnerId(items[dto.itemId.value]) != Some(userId) &&
      items[dto.itemId.value].available == Some(true) &&
      now <= dto.start <= dto.end
    ensures r.Ok? ==>
      r.value == Booking(None, dto.start, dto.end, Some(items[dto.itemId.value]),
                         Some(users[userId]), Some(WAITING))
  {
    if userId !in users then Err(NotFound)
    else if dto.itemId.None? || dto.itemId.value !in items then Err(NotFound)
    else
      var item := items[dto.itemId.value];
      if OwnerId(item) == Some(userId) then Err(NotFound)
      else if item.available != Some(true) then Err(BadRequest)
      else
        var booking := BookingMapper.ToBooking(dto);
        if booking.start < now || booking.end < booking.start || booking.end < now then Err(BadRequest)
        else Ok(booking.(booker := Some(users[userId]), item := Some(item), status := Some(WAITING)))
  }

  /** A booking that starts right now, or ends at the moment it starts, is
      accepted. */
  lemma ZeroLengthBookingNowAccepted(users: map<int, User>, items: map<int, Item>, userId: int,
                                     itemId: int, now: int)
    requires userId in users && itemId in items
    requires OwnerId(items[itemId]) != Some(userId) && items[itemId].available == Some(true)
    ensures CreateBooking(users, items, userId, BookingDto(Some(itemId), now, now), now).Ok?
  {
  }

  /** The decision `change` would save, or why it is refused. */
  function Change(users: map<int, User>, bookings: map<int, Booking>, userId: int, id: int,
                  approved: bool): (r: Result<Booking>)
    ensures userId !in users || id !in bookings ==> r == Err(NotFound)
    ensures userId in users && id in bookings && ItemOwnerId(bookings[id]) != Some(userId) ==>
      r == Err(NotFound)
    ensures (userId in users && id in bookings && ItemOwnerId(bookings[id]) == Some(userId) &&
             bookings[id].status in {Some(APPROVED), Some(REJECTED)}) ==> r == Err(BadRequest)
    ensures r.Ok? <==>
      userId in users && id in bookings && ItemOwnerId(bookings[id]) == Some(userId) &&
      bookings[id].status !in {Some(APPROVED), Some(REJECTED)}
    ensures r.Ok? ==> r.value.status == Some(if approved then APPROVED else REJECTED)
    ensures r.Ok? ==> r.value.(status := bookings[id].status) == bookings[id]
  {
    if userId !in users then Err(NotFound)
    else if id !in bookings then Err(NotFound)
    else
      var booking := bookings[id];
      if ItemOwnerId(booking) != Some(userId) then Err(NotFound)
      else if booking.status == Some(APPROVED) || booking.status == Some(REJECTED) then Err(BadRequest)
      else Ok(booking.(status := Some(if approved then APPROVED else REJECTED)))
  }

  /** `getBookingById`: the stored booking, shown only to its booker or to
      the owner of its item. */
  function GetBookingById(users: map<int, User>, bookings: map<int, Booking>, userId: int, id: int)
    : (r: Result<Booking>)
    ensures r.Ok? <==>
      userId in users && id in bookings &&
      (BookerId(bookings[id]) == Some(userId) || ItemOwnerId(bookings[id]) == Some(userId))
    ensures r.Ok? ==> r.value == bookings[id]
    ensures r.Err? ==> r.error == NotFound
  {
    if userId !in users then Err(NotFound)
    else if id !in bookings then Err(NotFound)
    else
      var booking := bookings[id];
      if !(BookerId(booking) == Some(userId) || ItemOwnerId(booking) == Some(userId)) then Err(NotFound)
      else Ok(booking)
  }

  /** The user check comes first, then the state name picks the query. */
  function GetBookings(users: map<int, User>, bookings: map<int, Booking>, role: Role, userId: int,
                       state: string, now: int, page: Page): (r: Result<seq<Booking>>)
    ensures userId !in users ==> r == Err(NotFound)
    ensures userId in users && ParseState(state).Err? ==> r == Err(BadRequest)
    ensures r.Ok? ==> forall b :: b in r.value ==>
      b in bookings.Values && OfUser(b, role, userId) && Meets(b, CriterionOf(ParseState(state).value), now)
    ensures r.Ok? ==> forall i, j :: 0 <= i < j < |r.value| ==> r.value[i].start >= r.value[j].start
    ensures r.Ok? && page.Unpaged? ==> forall b :: b in bookings.Values ==>
      (OfUser(b, role, userId) && Meets(b, CriterionOf(ParseState(state).value), now) ==> b in r.value)
    ensures r.Ok? ==>
      r.value == FindAllOrderByStartDesc(bookings, role, userId, CriterionOf(ParseState(state).value), now, page)
  {
    if userId !in users then Err(NotFound)
    else match ParseState(state)
      case Err(e) => Err(e)
      case Ok(st) => Ok(FindAllOrderByStartDesc(bookings, role, userId, CriterionOf(st), now, page))
  }

  /** `getBookingsByBooker`: the user's own bookings in the given state. */
  function GetBookingsByBooker(users: map<int, User>, bookings: map<int, Booking>, userId: int,
                               state: string, now: int, page: Page): (r: Result<seq<Booking>>)
    ensures userId !in users ==> r == Err(NotFound)
    ensures r.Ok? <==> userId in users && ParseState(state).Ok?
    ensures r.Err? && userId in users ==> r.error == BadRequest
    ensures r.Ok? ==> forall b :: b in r.value ==> b in bookings.Values && BookerId(b) == Some(userId)
    ensures r == GetBookings(users, bookings, Booker, userId, state, now, page)
  {
    GetBookings(users, bookings, Booker, userId, state, now, page)
  }

  /** `getBookingsByOwner`: the bookings of the user's items in the given state. */
  function GetBookingsByOwner(users: map<int, User>, bookings: map<int, Booking>, userId: int,
                              state: string, now: int, page: Page): (r: Result<seq<Booking>>)
    ensures userId !in users ==> r == Err(NotFound)
    ensures r.Ok? <==> userId in users && ParseState(state).Ok?
    ensures r.Err? && userId in users ==> r.error == BadRequest
    ensures r.Ok? ==> forall b :: b in r.value ==> b in bookings.Values && ItemOwnerId(b) == Some(userId)
    ensures r == GetBookings(users, bookings, ItemOwner, userId, state, now, page)
  {
    GetBookings(users, bookings, ItemOwner, userId, state, now, page)
  }

  /** A page of a listing is that page cut from the unpaged listing. */
  lemma ListingPage(users: map<int, User>, bookings: map<int, Booking>, role: Role, userId: int,
                    state: string, now: int, page: Page)
    requires userId in users && ParseState(state).Ok?
    ensures GetBookings(users, bookings, role, userId, state, now, page) ==
      Ok(Window(GetBookings(users, bookings, role, userId, state, now, Unpaged).value, page))
  {
    var crit := CriterionOf(ParseState(state).value);
    Queries.SelectPage(bookings, b => OfUser(b, role, userId) && Meets(b, crit, now), StartDesc, page);
  }

  /** An unpaged listing in any state is the ALL listing narrowed to that
      state, in the same order. */
  lemma ListingWithinAll(users: map<int, User>, bookings: map<int, Booking>, role: Role, userId: int,
                         st: State, now: int)
    requires userId in users
    ensures GetBookings(users, bookings, role, userId, StateName(st), now, Unpaged) ==
      Ok(Filter(GetBookings(users, bookings, role, userId, "ALL", now, Unpaged).value,
                b => Meets(b, CriterionOf(st), now)))
  {
    ParseStateRoundTrip(st, StateName(st));
    ParseStateRoundTrip(All, "ALL");
    FilteredWithinAll(bookings, role, userId, CriterionOf(st), now);
  }

  /** What saving a booking under key `id` leaves in the table. */
  function Save(bookings: map<int, Booking>, id: int, b: Booking): (t: map<int, Booking>)
    ensures id in t && t[id] == b.(id := Some(id))
    ensures forall k :: k != id ==> (k in t <==> k in bookings) && (k in bookings ==> t[k] == bookings[k])
  {
    bookings[id := b.(id := Some(id))]
  }

  /** The status machine: a new booking waits, its item's owner decides it
      once, and any later decision is refused with the decision kept. */
  lemma {:induction false} DecidedOnce(users: map<int, User>, items: map<int, Item>,
                                       bookings: map<int, Booking>, bookerId: int, ownerId: int,
                                       dto: BookingDto, now: int, id: int, first: bool, second: bool)
    requires ownerId in users
    requires CreateBooking(users, items, bookerId, dto, now).Ok?
    requires OwnerId(items[dto.itemId.value]) == Some(ownerId)
    ensures var created := Save(bookings, id, CreateBooking(users, items, bookerId, dto, now).value);
      var decided := Change(users, created, ownerId, id, first);
      decided.Ok? &&
      decided.value.status == Some(if first then APPROVED else REJECTED) &&
      Change(users, Save(created, id, decided.value), ownerId, id, second) == Err(BadRequest)
  {
    var b := CreateBooking(users, items, bookerId, dto, now).value;
    var created := Save(bookings, id, b);
    assert created[id].status == Some(WAITING);
    assert ItemOwnerId(created[id]) == Some(ownerId);
    var decided := Change(users, created, ownerId, id, first);
    assert decided.Ok?;
    var again := Save(created, id, decided.value);
    assert ItemOwnerId(again[id]) == Some(ownerId);
    assert again[id].status in {Some(APPROVED), Some(REJECTED)};
  }
}
