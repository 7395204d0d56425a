/** Conversions between items and their views. */
module ItemMapper {
  import opened Common
  import opened Entities

  /** The bare view of an item: the item's own fields, its request's id,
      and no booking or comment information yet. */
  function ToItemDto(item: Item): (d: ItemDto)
    ensures d.id == item.id && d.name == item.name
    ensures d.description == item.description && d.available == item.available
    ensures d.lastBooking == None && d.nextBooking == None && d.comments == None
    ensures d.requestId.Some? <==> item.request.Some? && item.request.value.id.Some?
    ensures item.request.Some? ==> d.requestId == item.request.value.id
  {
    ItemDto(item.id, item.name, item.description, item.available, None, None, None, RequestId(item))
  }

  /** A new, unsaved item built from a view: no id, no owner, no request. */
  function ToItem(d: ItemDto): (item: Item)
    ensures item.id == None && item.owner == None && item.request == None
    ensures item.name == d.name && item.description == d.description
    ensures item.available == d.available
  {
    Item(None, d.name, d.description, d.available, None, None)
  }

  /** Mapping a view to an item and back keeps the user-supplied fields and
      drops everything the server assigns. */
  lemma ViewRoundTrip(d: ItemDto)
    ensures ToItemDto(ToItem(d)) ==
      ItemDto(None, d.name, d.description, d.available, None, None, None, None)
  {
  }

  /** Mapping an item to its view and back loses only id, owner and request. */
  lemma ItemRoundTrip(item: Item)
    ensures ToItem(ToItemDto(item)) == item.(id := None, owner := None, request := None)
  {
  }
}

/** Conversions between bookings and their transfer forms. */
module BookingMapper {
  import opened Common
  import opened Entities

  /** A new, unsaved booking carrying only the requested period. */
  function ToBooking(d: BookingDto): (b: Booking)
    ensures b.id == None && b.item == None && b.booker == None && b.status == None
    ensures b.start == d.start && b.end == d.end
  {
    Booking(None, d.start, d.end, None, None, None)
  }

  /** The transfer form of a booking; the source dereferences the item. */
  function ToBookingDto(b: Booking): (d: BookingDto)
    requires b.item.Some?
    ensures d.itemId == b.item.value.id && d.start == b.start && d.end == b.end
  {
    BookingDto(b.item.value.id, b.start, b.end)
  }

  /** The short form: the booking's id and its booker's id. */
  function ToPartBookingDto(b: Booking): (d: PartBookingDto)
    requires b.booker.Some?
    ensures d.id == b.id && d.bookerId == b.booker.value.id
  {
    PartBookingDto(b.id, b.booker.value.id)
  }

  /** A booking sent out and read back keeps its period and nothing else. */
  lemma PeriodRoundTrip(b: Booking)
    requires b.item.Some?
    ensures ToBooking(ToBookingDto(b)) == Booking(None, b.start, b.end, None, None, None)
  {
  }
}

/** Conversions between item requests and their views. */
module ItemRequestMapper {
  import opened Common
  import opened Entities

  /** A new, unsaved request stamped with the creation time `now`. */
  function ToItemRequest(d: ItemRequestDto, now: int): (r: ItemRequest)
    ensures r.id == None && r.user == None
    ensures r.created == now && r.description == d.description
  {
    ItemRequest(None, now, d.description, None)
  }

  /** The view of a request, with no items attached yet. */
  function ToItemRequestDto(r: ItemRequest): (d: ItemRequestDto)
    ensures d.id == r.id && d.created == r.created && d.description == r.description
    ensures d.items == None
  {
    ItemRequestDto(r.id, r.created, r.description, None)
  }

  /** A view turned into a request and back keeps its description, has no id
      and no items, and is dated `now`. */
  lemma ViewRoundTrip(d: ItemRequestDto, now: int)
    ensures ToItemRequestDto(ToItemRequest(d, now)) == ItemRequestDto(None, now, d.description, None)
  {
  }
}
