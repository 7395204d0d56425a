# shareit business layer in Dafny

A model of the business layer of *shareit*, a peer-to-peer item-lending
service. Users list items. Other users book them for a period. The owner
approves or rejects each booking once. Former bookers may comment on an
item. Anyone may post a request for an item they need, and items made in
answer to a request are linked to it.

The model covers these parts:

- **Bookings.** The creation guards and the `WAITING → APPROVED | REJECTED`
  status machine. Only the booker or the item's owner may read a booking.
  Six named states select a derived repository query. Each query is a
  filter plus a sort by start time, latest first.
- **Items.** The view of an item shows its last and next booking to the
  owner only. Comments are shown to everyone. The model also covers the
  owner's list of items, the case-insensitive text search with its
  blank-text guard, the finished-booking gate on comments, and the owner's
  partial update.
- **Requests.** Items are grouped by request id and joined onto requests.
  The model covers the caller's own list, a page of everybody else's
  requests, and the lookup by id.
- **Paging.** An offset and a size become a page index and a size.
- **User and item stores.** In-memory maps with an id counter that never
  goes back. The user service keeps emails unique.

Modelling conventions:

- A Java reference that may be `null` is an `Option`.
- A thrown `NotFoundException`, `BadRequestException` or
  `DuplicateEmailException` is an `Err` of `Result`.
- A database table is a `map<int, T>` from primary key to row.
  `Tables.Rows` scans a table in key order.
- A derived query is `Queries.Select`: filter, stable sort by a key, then
  the page's window.
- Timestamps are integers. The clock is a `now` parameter.
- The in-memory stores are classes (`UserStore.UserRepository`,
  `ItemStore.ItemRepository`) whose methods update a map and a counter.
- The services that write through them are methods: `UserService.Create`,
  `UserService.Change`, `UserService.Delete` and `ItemService.Change`.
- The read-only services are functions over table snapshots.
- `BookingService.CreateBooking`, `BookingService.Change`,
  `ItemService.WriteComment` and `ItemRequestService.CreateRequest` return
  the entity the service would save. `BookingService.Save` says what the
  save leaves in the table.

Behaviours the model follows that a reader might not expect:

- An owner booking their own item gets NotFound, not a refusal of access.
- A booking with `end == start`, or one starting exactly now, is accepted.
- CURRENT is strict on both sides.
- A second decision on a booking is a bad request.
- `getAll` of requests uses `from` as the page number itself, not `from / size`.

## Model

| member | source | states |
|---|---|---|
| BookingService.CreateBooking | src/main/java/ru/practicum/shareit/booking/BookingService.java:24-50 | The guards, in order: unknown user, then unknown item (NotFound); the owner booking their own item (NotFound, even when the item is unavailable); an unavailable item (BadRequest). It succeeds iff all guards pass and `now <= start <= end`; once the other guards pass, a failing date check is BadRequest. The result waits, has the booker and the item, and has the requested period. |
| BookingService.ZeroLengthBookingNowAccepted | src/main/java/ru/practicum/shareit/booking/BookingService.java:40-44 | A booking starting now and ending at its start passes every date check. |
| BookingService.Change | src/main/java/ru/practicum/shareit/booking/BookingService.java:52-69 | NotFound for an unknown user or booking, or a user who does not own the item. BadRequest for an already approved or rejected booking. It succeeds exactly otherwise. The new status is APPROVED iff `approved`, and every other field is kept. |
| BookingService.Save | src/main/java/ru/practicum/shareit/booking/BookingService.java:49 | Saving under a key stores the booking with that id and leaves every other key as it was. |
| BookingService.DecidedOnce | src/main/java/ru/practicum/shareit/booking/BookingService.java:46-68 | A created, saved booking can be decided once by the item's owner. The decision sets the status to APPROVED or REJECTED. A second decision after saving is refused with BadRequest. |
| BookingService.GetBookingById | src/main/java/ru/practicum/shareit/booking/BookingService.java:71-82 | Returns the stored booking unchanged iff the user and the booking exist and the user is its booker or its item's owner. Otherwise NotFound. |
| BookingService.ParseState | src/main/java/ru/practicum/shareit/booking/BookingService.java:88-103 | Any string outside the six state names is a BadRequest. |
| BookingService.ParseStateRoundTrip | src/main/java/ru/practicum/shareit/booking/BookingService.java:88-103 | Each state's name parses back to that state. A string parses iff it is one of the six names. |
| BookingService.GetBookings | src/main/java/ru/practicum/shareit/booking/BookingService.java:84-126 | An unknown user is NotFound before the state is looked at. An unknown state is BadRequest. Every listed booking is stored, belongs to the user in the given role and meets the state's criterion. Unpaged, every such booking is listed. The list is the repository query `FindAllOrderByStartDesc` for the state's criterion and is ordered by start, latest first. |
| BookingService.GetBookingsByBooker | src/main/java/ru/practicum/shareit/booking/BookingService.java:84-104 | Succeeds iff the user exists and the state is known. An error for an existing user is BadRequest. Only the user's own bookings are listed. It is `GetBookings` in the booker role, so the criterion, order and completeness stated there hold. |
| BookingService.GetBookingsByOwner | src/main/java/ru/practicum/shareit/booking/BookingService.java:106-126 | As for the booker, over the bookings of the user's items: it is `GetBookings` in the owner role. |
| BookingService.ListingWithinAll | src/main/java/ru/practicum/shareit/booking/BookingService.java:88-103 | The unpaged listing in any state is the ALL listing narrowed to that state's criterion, in the same order. |
| BookingService.ListingPage | src/main/java/ru/practicum/shareit/booking/BookingService.java:84-126 | For a known user and state, a paged listing is that page cut from the unpaged listing. |
| BookingRepository.FindAllOrderByStartDesc | src/main/java/ru/practicum/shareit/booking/BookingRepository.java:10-28 | The ten role × criterion queries. Every result is stored, belongs to the user in the role and meets the criterion. Unpaged, every such booking is present. The result is sorted by start, descending. |
| BookingRepository.FilteredWithinAll | src/main/java/ru/practicum/shareit/booking/BookingRepository.java:10-28 | Each filtered query is the ALL query of the same role and user with the criterion applied, in the same order. |
| BookingRepository.BoundariesExcluded | src/main/java/ru/practicum/shareit/booking/BookingRepository.java:12-16 | A booking starting exactly now is neither CURRENT nor FUTURE. One ending exactly now is neither CURRENT nor PAST. |
| BookingRepository.FindAllByItemIdOrderByStart | src/main/java/ru/practicum/shareit/booking/BookingRepository.java:30 | Exactly the item's stored bookings, sorted by start, ascending. |
| BookingRepository.FindFinishedByItemAndBooker | src/main/java/ru/practicum/shareit/booking/BookingRepository.java:32 | Exactly the stored bookings of that item by that booker with `end < now`, sorted by start, descending. |
| BookingRepository.FinishedIgnoresStatus | src/main/java/ru/practicum/shareit/booking/BookingRepository.java:32 | A rejected booking that has ended still makes the comment-gate query non-empty. |
| ItemService.FindLastBooking | src/main/java/ru/practicum/shareit/item/ItemService.java:145-149 | None iff no booking has ended before now. Otherwise a listed booking with `end < now` after which no booking has ended before now. |
| ItemService.FindNextBooking | src/main/java/ru/practicum/shareit/item/ItemService.java:151-155 | None iff every booking has ended by now. Otherwise a listed booking with `end > now` before which every booking has ended by now. |
| ItemService.LastIsFinalFinished | src/main/java/ru/practicum/shareit/item/ItemService.java:145-149 | The last booking is the final element of the bookings filtered by `end < now`, as the stream's reduce keeping the second element computes. |
| ItemService.NextIsFirstUnfinished | src/main/java/ru/practicum/shareit/item/ItemService.java:151-155 | The next booking is the head of the bookings filtered by `end > now`, as the stream's reduce keeping the first element computes. |
| ItemService.LastStartedLatest | src/main/java/ru/practicum/shareit/item/ItemService.java:145-149 | Over a start-ascending list, the last booking has the greatest start among the finished bookings. |
| ItemService.NextStartsEarliest | src/main/java/ru/practicum/shareit/item/ItemService.java:151-155 | Over a start-ascending list, the next booking has the least start among the unfinished bookings. |
| ItemService.EndingNowIsNeither | src/main/java/ru/practicum/shareit/item/ItemService.java:147-153 | Neither the last nor the next booking ends exactly now. A booking in progress means there is a next booking. |
| ItemService.InProgressIsNext | server/src/test/java/ru/practicum/shareit/item/ItemServiceTest.java:91-108 | A single booking in progress is the next booking, and there is no last one. |
| ItemService.CommentsOfItem | src/main/java/ru/practicum/shareit/item/ItemService.java:55-58 | Exactly the item's stored comments, newest first. |
| ItemService.GetItemById | src/main/java/ru/practicum/shareit/item/ItemService.java:41-60 | Succeeds iff the user and the item exist; otherwise NotFound. It copies the item's fields. A non-owner sees no last or next booking. The owner sees both, taken from the item's start-ascending bookings. Everyone sees the item's comments, newest first. The view carries the id of the request the item answers. |
| ItemService.OwnerView | src/main/java/ru/practicum/shareit/item/ItemService.java:67-81 | An owned item's entry keeps the item's id and name. |
| ItemService.OwnerViews | src/main/java/ru/practicum/shareit/item/ItemService.java:65-83 | One entry per owned item, in the same order. Each entry has that item's booking window and comments. |
| ItemService.GetAllItemsUser | src/main/java/ru/practicum/shareit/item/ItemService.java:62-84 | Succeeds iff the user exists; otherwise NotFound. |
| ItemService.OwnerListCoversOwnedItems | src/main/java/ru/practicum/shareit/item/ItemService.java:62-84 | Each entry of the owner's list comes from one of the owner's items. Each of the owner's items has an entry with its id and name. |
| ItemService.OwnerListAgreesWithLookup | src/main/java/ru/practicum/shareit/item/ItemService.java:41-84 | When items are stored under their own ids, each entry of the owner's list is exactly what the lookup by id shows the owner. |
| ItemService.OwnedEntryIsLookup | src/main/java/ru/practicum/shareit/item/ItemService.java:41-84 | For one owned item, the owner's entry equals the owner's lookup of that item. |
| ItemService.OwnerViewIsLookup | src/main/java/ru/practicum/shareit/item/ItemService.java:46-58 | For the owner, the lookup of an owned item is the owner's entry for it. |
| ItemService.SearchByText | src/main/java/ru/practicum/shareit/item/ItemService.java:111-119 | Succeeds iff the user exists; otherwise NotFound. A null or blank text gives an empty list. Any other text gives the views of the matching items. |
| ItemService.MatchingViews | src/main/java/ru/practicum/shareit/item/ItemService.java:116-118 | Every view shown is of a stored, available item that matches the text. Every stored item that matches has its view shown. |
| ItemService.EmptyTextMatchesEverything | src/main/java/ru/practicum/shareit/item/ItemService.java:113-115 | Without the blank-text guard, the query with an empty text would match every available item that has a name. |
| ItemService.WriteComment | src/main/java/ru/practicum/shareit/item/ItemService.java:121-138 | NotFound for an unknown user or item. Otherwise it succeeds iff the user has a booking of the item that ended before now, in any status; failure is BadRequest. The comment carries the text, the item, the author and `now`. |
| ItemService.FinishedQueryIsGate | src/main/java/ru/practicum/shareit/item/ItemService.java:125-129 | The comment gate query finds something iff the user has a booking of the item that ended before now. |
| ItemService.ApplyPatch | src/main/java/ru/practicum/shareit/item/ItemService.java:98-106 | Non-null name, description and availability replace the stored ones. The id, owner and request are kept. |
| ItemService.ApplyPatchIdempotent | src/main/java/ru/practicum/shareit/item/ItemService.java:98-106 | Applying a patch twice equals applying it once. An empty patch changes nothing. |
| ItemService.Change | src/main/java/ru/practicum/shareit/item/ItemService.java:91-109 | Succeeds iff the user exists, the item exists and the user owns it; otherwise NotFound and the store is unchanged. On success the patched item replaces the stored one, no other key changes, and its view is returned. |
| ItemRepository.FindAllByOwnerIdOrderById | server/src/main/java/ru/practicum/shareit/item/repository/ItemRepository.java:11 | Only the owner's stored items, in ascending id order. Unpaged, all of them. |
| ItemRepository.FindAllByText | server/src/main/java/ru/practicum/shareit/item/repository/ItemRepository.java:13-18 | Only stored items that are available and whose lower-cased name or description contains the lower-cased text. Unpaged, all of them. |
| ItemRepository.TextSearchIgnoresCase | server/src/main/java/ru/practicum/shareit/item/repository/ItemRepository.java:15-16 | Two texts with the same lower-case form give the same result. |
| ItemRepository.SearchScenario | server/src/test/java/ru/practicum/shareit/item/ItemRepositoryTest.java:35-77 | Of the items "item"/"about", "test"/"about item" and "unknown"/"about", searching "item" finds exactly the first two, in id order. The order is the model's own choice: the query has no ORDER BY. |
| ItemRepository.FindAllWithRequestNotNull | server/src/main/java/ru/practicum/shareit/item/repository/ItemRepository.java:20-23 | Exactly the stored items that have a request. |
| ItemRepository.FindAllByRequestId | server/src/main/java/ru/practicum/shareit/item/repository/ItemRepository.java:25 | Exactly the stored items whose request has the given id. |
| ItemRepository.FindAllByRequestIdNotNull | server/src/main/java/ru/practicum/shareit/item/repository/ItemRepository.java:27 | Exactly the stored items whose request has an id. |
| ItemRequestService.CreateRequest | src/main/java/ru/practicum/shareit/request/ItemRequestService.java:28-33 | Succeeds iff the user exists; otherwise NotFound. The request is dated now, carries the description and is made by the user. |
| ItemRequestService.CreatedRequestListed | src/main/java/ru/practicum/shareit/request/ItemRequestService.java:28-54 | A created request, saved under a key, appears in its maker's list with that id, the date and the description. |
| ItemRequestService.GroupByRequestId | src/main/java/ru/practicum/shareit/request/ItemRequestService.java:37-40 | A request id is a key iff some view carries it. Its group is the views carrying it, in their original order. |
| ItemRequestService.GroupedUnderOwnId | src/main/java/ru/practicum/shareit/request/ItemRequestService.java:37-40 | Each view is grouped under exactly one key, its own request id. |
| ItemRequestService.GroupIsRequestItems | src/main/java/ru/practicum/shareit/request/ItemRequestService.java:37-40 | The group of a request id is the views of `findAllByRequestId` for it. No group means there are none. |
| ItemRequestService.GroupIsRequestItemsAll | src/main/java/ru/practicum/shareit/request/ItemRequestService.java:66-69 | The grouping of the scanned items attaches to every request id exactly the items answering it. |
| ItemRequestService.Answers | src/main/java/ru/practicum/shareit/request/ItemRequestService.java:83-86 | Every view is the view of a stored item answering the request. Every stored item answering the request has its view there. |
| ItemRequestService.OwnViews | src/main/java/ru/practicum/shareit/request/ItemRequestService.java:42-53 | The grouping-based join gives each request exactly its answers, or an empty list when there are none. |
| ItemRequestService.GetAllByUser | src/main/java/ru/practicum/shareit/request/ItemRequestService.java:35-54 | Succeeds iff the user exists; otherwise NotFound. One entry per request of the user, newest first. Each entry carries exactly the items answering it. |
| ItemRequestService.OthersViews | src/main/java/ru/practicum/shareit/request/ItemRequestService.java:66-78 | The grouping-based join gives each request exactly its answers, or null when there are none. |
| ItemRequestService.GetAll | src/main/java/ru/practicum/shareit/request/ItemRequestService.java:56-79 | A null `from` or `size` gives an empty list before any user check. Bad values are BadRequest, also before the user check. Then it succeeds iff the user exists; otherwise NotFound. The entries are page `from` of size `size` of the other users' requests, newest first. Each entry carries its answers or null. |
| ItemRequestService.GetRequestById | src/main/java/ru/practicum/shareit/request/ItemRequestService.java:81-93 | Succeeds iff the user and the request exist; otherwise NotFound. It copies the request's fields. Every listed view is the view of a stored item answering the request, and every such item's view is listed. |
| ItemRequestService.OwnListAgreesWithLookup | src/main/java/ru/practicum/shareit/request/ItemRequestService.java:35-93 | Each entry of the caller's own list is exactly the lookup of that request. |
| ItemRequestService.OwnEntryIsLookup | src/main/java/ru/practicum/shareit/request/ItemRequestService.java:42-53 | For one stored request, its entry in its maker's list is its lookup by id. |
| ItemRequestService.OthersEntryIsLookup | src/main/java/ru/practicum/shareit/request/ItemRequestService.java:71-92 | For one stored request, its entry in another user's list is its lookup by id, with null answers shown as an empty list. |
| ItemRequestService.OthersListAgreesWithLookup | src/main/java/ru/practicum/shareit/request/ItemRequestService.java:56-93 | Each entry of the others' page is the lookup of that request, except that no answers is null in the page and an empty list in the lookup. |
| ItemRequestRepository.FindAllByUserIdOrderByCreatedDesc | src/main/java/ru/practicum/shareit/request/ItemRequestRepository.java:9 | Exactly the user's stored requests, newest first. |
| ItemRequestRepository.FindAllByUserIdIsNot | src/main/java/ru/practicum/shareit/request/ItemRequestRepository.java:11 | Only stored requests of other users, never one without a user, newest first. Unpaged, all of them. |
| ItemRequestRepository.OthersPage | src/main/java/ru/practicum/shareit/request/ItemRequestRepository.java:11 | A page of the others' requests is that window of the full list. |
| ItemRequestRepository.OwnAndOthersPartition | src/main/java/ru/practicum/shareit/request/ItemRequestRepository.java:9-11 | A request with a known user is in the user's own list iff it is not among the others' requests. |
| Pagination.GetPageOrThrow | src/main/java/ru/practicum/shareit/utils/Pagination.java:8-17 | Unpaged iff a parameter is null. BadRequest iff `size <= 0` or `from < 0`. Otherwise the page has size `size` and holds element `from`. Every error is BadRequest. |
| Pagination.PageBounds | src/main/java/ru/practicum/shareit/utils/Pagination.java:15 | The index `from / size` is non-negative, with `index * size <= from < (index + 1) * size`. The page starts at `from` iff `from` is a multiple of `size`. |
| Pagination.PageStartsAtOffset | src/main/java/ru/practicum/shareit/utils/Pagination.java:15-16 | The page's first row is the row at `from` rounded down to a multiple of `size`. |
| Pagination.Window | src/main/java/ru/practicum/shareit/utils/Pagination.java:16 | Unpaged is everything. Page `i` of size `n` holds at most `n` rows, the rows from offset `i * n` on, and nothing past the end. |
| BookingController.GetPageOrThrow | src/main/java/ru/practicum/shareit/booking/BookingController.java:54-63 | Unpaged iff a parameter is null. BadRequest iff `size <= 0` or `from < 0`, and every error is BadRequest. |
| BookingController.AgreesWithPagination | src/main/java/ru/practicum/shareit/booking/BookingController.java:54-63 | The controller's copy agrees with the shared helper on every input. |
| UserService.Create | src/main/java/ru/practicum/shareit/user/UserService.java:16-24 | DuplicateEmail when a stored user has the email, leaving the store and counter unchanged. Otherwise the user is stored under the next id, which was free, and returned with that id. A store whose emails were unique stays so. |
| UserService.GetUserById | src/main/java/ru/practicum/shareit/user/UserService.java:26-29 | Returns the stored user iff the id is present; otherwise NotFound. |
| UserService.Change | src/main/java/ru/practicum/shareit/user/UserService.java:35-51 | NotFound for an absent id, before the email check. DuplicateEmail when any stored user has the new email, the changed user included. Otherwise the patched user replaces the stored one and is returned. A store whose emails were unique stays so. |
| UserService.Patch | src/main/java/ru/practicum/shareit/user/UserService.java:42-47 | A non-null name or email replaces the stored one. The id is kept. |
| UserService.PatchIdempotent | src/main/java/ru/practicum/shareit/user/UserService.java:42-47 | Patching twice equals patching once. An empty patch changes nothing. |
| UserService.Delete | src/main/java/ru/practicum/shareit/user/UserService.java:53-55 | Removes the id if present. An absent id is not an error. A store whose emails were unique stays so. |
| UserService.StoreUntakenKeepsUnique | src/main/java/ru/practicum/shareit/user/UserService.java:16-24 | If no two stored users share an email, storing a user whose email no stored user has, under any id, keeps it so. |
| UserService.StoreSameEmailKeepsUnique | src/main/java/ru/practicum/shareit/user/UserService.java:35-51 | Overwriting a stored user with one that has the same email keeps the emails unique, as a change without a new email does. |
| UserStore.UserRepository.constructor | src/main/java/ru/practicum/shareit/user/repository/UserRepositoryImpl.java:10-11 | Empty store, counter at 1. |
| UserStore.UserRepository.FindById | src/main/java/ru/practicum/shareit/user/repository/UserRepositoryImpl.java:13-16 | The stored user, or nothing iff the id is absent. |
| UserStore.UserRepository.Add | src/main/java/ru/practicum/shareit/user/repository/UserRepositoryImpl.java:18-24 | Takes the counter's value, which is above every key in use, and increments the counter. Stores the user, with that id written into it, under that key. |
| UserStore.UserRepository.Overwrite | src/main/java/ru/practicum/shareit/user/repository/UserRepositoryImpl.java:26-29 | The id maps to the given user. No other key changes. |
| UserStore.UserRepository.Delete | src/main/java/ru/practicum/shareit/user/repository/UserRepositoryImpl.java:31-34 | The id is gone. No other key changes, and the counter is kept, so the id is never reused. |
| UserStore.UserRepository.FindByEmail | src/main/java/ru/practicum/shareit/user/repository/UserRepositoryImpl.java:36-42 | Some stored user with that email, or nothing iff there is none. |
| UserStore.UserRepository.FindAll | src/main/java/ru/practicum/shareit/user/repository/UserRepositoryImpl.java:44-47 | As many users as are stored, every stored user among them and nothing else; each one comes from a distinct key. |
| ItemStore.ItemRepository.constructor | src/main/java/ru/practicum/shareit/item/repository/ItemRepositoryImpl.java:14-15 | Empty store, counter at 1. |
| ItemStore.ItemRepository.FindById | src/main/java/ru/practicum/shareit/item/repository/ItemRepositoryImpl.java:25-28 | The stored item, or nothing iff the id is absent. |
| ItemStore.ItemRepository.Add | src/main/java/ru/practicum/shareit/item/repository/ItemRepositoryImpl.java:17-23 | Takes the counter's value, which is above every key in use, and increments the counter. Stores the item, with that id written into it, under that key. |
| ItemStore.ItemRepository.Overwrite | src/main/java/ru/practicum/shareit/item/repository/ItemRepositoryImpl.java:35-38 | The id maps to the given item. No other key changes. |
| ItemStore.ItemRepository.Delete | src/main/java/ru/practicum/shareit/item/repository/ItemRepositoryImpl.java:40-43 | The id is gone. No other key changes, and the counter is kept. |
| ItemStore.ItemRepository.FindAll | src/main/java/ru/practicum/shareit/item/repository/ItemRepositoryImpl.java:30-33 | As many items as are stored, every stored item among them and nothing else; each one comes from a distinct key. |
| ItemMapper.ToItemDto | server/src/main/java/ru/practicum/shareit/item/ItemMapper.java:7-20 | Copies id, name, description and availability. Leaves the bookings and comments null. The request id is the request's id when there is a request, and null otherwise. |
| ItemMapper.ToItem | server/src/main/java/ru/practicum/shareit/item/ItemMapper.java:22-25 | Copies name, description and availability. Id, owner and request are null. |
| ItemMapper.ViewRoundTrip | server/src/main/java/ru/practicum/shareit/item/ItemMapper.java:7-25 | A view mapped to an item and back keeps name, description and availability. Everything else is null. |
| ItemMapper.ItemRoundTrip | server/src/main/java/ru/practicum/shareit/item/ItemMapper.java:7-25 | An item mapped to a view and back loses only its id, owner and request. |
| BookingMapper.ToBooking | server/src/main/java/ru/practicum/shareit/booking/BookingMapper.java:7-10 | Copies start and end. Id, item, booker and status are null. |
| BookingMapper.ToBookingDto | server/src/main/java/ru/practicum/shareit/booking/BookingMapper.java:12-17 | The item's id, start and end. |
| BookingMapper.ToPartBookingDto | server/src/main/java/ru/practicum/shareit/booking/BookingMapper.java:19-21 | The booking's id and the booker's id. |
| BookingMapper.PeriodRoundTrip | server/src/main/java/ru/practicum/shareit/booking/BookingMapper.java:7-17 | A booking sent out and read back keeps its period and nothing else. |
| ItemRequestMapper.ToItemRequest | server/src/main/java/ru/practicum/shareit/request/ItemRequestMapper.java:9-14 | Copies the description and is dated now. Id and user are null. |
| ItemRequestMapper.ToItemRequestDto | server/src/main/java/ru/practicum/shareit/request/ItemRequestMapper.java:16-21 | Copies id, date and description. Items are null. |
| ItemRequestMapper.ViewRoundTrip | server/src/main/java/ru/practicum/shareit/request/ItemRequestMapper.java:9-21 | A view mapped to a request and back keeps the description, has no id and no items, and is dated now. |
| Text.Lower | server/src/main/java/ru/practicum/shareit/item/repository/ItemRepository.java:15-16 | Keeps the length and maps each ASCII upper-case letter to its lower-case letter (code point plus 32); every other character is kept. |
| Text.LowerIdempotent | server/src/main/java/ru/practicum/shareit/item/repository/ItemRepository.java:15-16 | Lower-casing twice is lower-casing once. |

## Left out

- Controllers, the gateway, the error handlers, JPA annotations and bean validation are not modelled. Errors are the three `Error` kinds.
- The clock: each operation takes one `now`. The source samples the clock several times within one call.
- Ids assigned by JPA `save`: `BookingService.Save` and the request lemmas take the key as a parameter.
- Pageable internals: a page is `Unpaged` or an index and a size. A request-level sort other than the one the code passes is not modelled.
- JPQL `LIKE`: the search text is matched literally, so `%` and `_` in it are not wildcards. `LOWER` and `isBlank` cover ASCII only.
- The comment repository and `CommentMapper` are not part of this model. The comment query is modelled locally in `ItemService.CommentsOfItem`, and the comment view is a function parameter.
- `ItemService.createItem`, `ItemService.delete` and `UserService.getAll` are not modelled. They are plain store calls outside the listed operations.
- Lombok `equals` on users: ownership and authorship are compared by user id.
- Ties in a sort are broken by primary key. The database leaves that order unspecified.
- ItemRepository.FindAllByText, ItemRepository.FindAllWithRequestNotNull, ItemRepository.FindAllByRequestIdNotNull and ItemRepository.FindAllByRequestId return their rows in ascending id order. The queries have no ORDER BY, so the database leaves the order unspecified. The same holds for the item lists in `ItemRequestService.Answers` and for the order `ItemRepository.SearchScenario` states.
- The id counters of `UserStore.UserRepository` and `ItemStore.ItemRepository` are unbounded integers. The source's counter is a 32-bit `int` (an `Integer` for items), so it would wrap after 2^31 - 1 ids. The claims that an id is never reused hold only below that bound.
- `getAllItemsUser` calls `findAllByOwnerId`, which is modelled by the server repository's `findAllByOwnerIdOrderById`, unpaged.
- `findAllByUserIdIsNot` is modelled with the only sort its caller passes, created descending.
- `ItemRequestService.GetAll` requires every stored item's request to have an id when valid paging parameters reach the grouping for a known user. Otherwise `groupingBy` would throw on a null key, which the model does not represent.
- A `NullPointerException` on a null column that the schema forbids is modelled as no match or a null view, never as an error. This covers a null owner, booker, item, email or availability. One case: `ItemService.Part` shows a booking without a booker as null. Another: a stored user without an email never matches in `FindByEmail`.
- A null `itemId` in `createBooking` is modelled as NotFound.
- A null `available` on a stored item counts as unavailable: BadRequest when booking, and no match in the search.
- An item without an id has no bookings or comments in `ItemService.OwnerView`.
- Aliasing of mutable entities is not modelled. `userInDb` and `itemInDb` are values, and the store is updated with `Overwrite`. The JPA `save` in `ItemService.change` is modelled as the in-memory store's overwrite.
- `BookingService.CreateBooking` and `BookingService.Change` return the booking they would save instead of mutating an entity in place. `BookingService.Save` says what the save leaves in the table.
- ItemService.GetAllItemsUser: its own contract states only when it succeeds. The content of the list is stated by `ItemService.OwnerViews`, `ItemService.OwnerListCoversOwnedItems` and `ItemService.OwnerListAgreesWithLookup`.
- ItemService.OwnerView: its own contract states only id and name. `ItemService.OwnerViewIsLookup` states the rest.
- The request-service test scenario (two requests, one answered) is not restated as a lemma. `ItemRequestService.GetAllByUser` covers it for all inputs.
- Concurrency: two overlapping bookings of one item are not prevented. There is nothing to lock.
