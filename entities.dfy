/** The persistent entities of the lending service and the views (DTOs) the
    services hand back. Every Java reference field that may be null is an
    `Option`; timestamps are integers on a single clock. */
module Entities {
  import opened Common

  /** A registered user; `id` is null until the store assigns one. */
  datatype User = User(id: Option<int>, name: Option<string>, email: Option<string>)

  /** A request for an item that nobody offers yet. */
  datatype ItemRequest = ItemRequest(
    id: Option<int>,
    created: int,
    description: Option<string>,
    user: Option<User>)

  /** An item offered for lending by its owner, possibly in answer to a request. */
  datatype Item = Item(
    id: Option<int>,
    name: Option<string>,
    description: Option<string>,
    available: Option<bool>,
    request: Option<ItemRequest>,
    owner: Option<User>)

  datatype BookingStatus = WAITING | APPROVED | REJECTED

  /** A booking of an item by a booker for the period from `start` to `end`. */
  datatype Booking = Booking(
    id: Option<int>,
    start: int,
    end: int,
    item: Option<Item>,
    booker: Option<User>,
    status: Option<BookingStatus>)

  /** A comment left on an item by a former booker. */
  datatype Comment = Comment(
    id: Option<int>,
    text: Option<string>,
    item: Option<Item>,
    author: Option<User>,
    created: int)

  /** The short form of a booking shown next to an item. */
  datatype PartBookingDto = PartBookingDto(id: Option<int>, bookerId: Option<int>)

  /** The body of a booking request. */
  datatype BookingDto = BookingDto(itemId: Option<int>, start: int, end: int)

  datatype CommentDto = CommentDto(
    id: Option<int>,
    text: Option<string>,
    authorName: Option<string>,
    created: int)

  /** The view of an item; booking and comment fields are filled in by the item service. */
  datatype ItemDto = ItemDto(
    id: Option<int>,
    name: Option<string>,
    description: Option<string>,
    available: Option<bool>,
    lastBooking: Option<PartBookingDto>,
    nextBooking: Option<PartBookingDto>,
    comments: Option<seq<CommentDto>>,
    requestId: Option<int>)

  datatype ItemRequestDto = ItemRequestDto(
    id: Option<int>,
    created: int,
    description: Option<string>,
    items: Option<seq<ItemDto>>)

  /** The id of an item's owner, if the item has an owner with an id. */
  function OwnerId(item: Item): Option<int>
  {
    if item.owner.Some? then item.owner.value.id else None
  }

  /** The id of the request an item answers, if any. */
  function RequestId(item: Item): Option<int>
  {
    if item.request.Some? then item.request.value.id else None
  }

  /** The id of a booking's item, if it has one. */
  function ItemId(b: Booking): Option<int>
  {
    if b.item.Some? then b.item.value.id else None
  }

  /** The id of a booking's booker, if it has one. */
  function BookerId(b: Booking): Option<int>
  {
    if b.booker.Some? then b.booker.value.id else None
  }

  /** The id of the owner of a booking's item, if known. */
  function ItemOwnerId(b: Booking): Option<int>
  {
    if b.item.Some? then OwnerId(b.item.value) else None
  }
}
