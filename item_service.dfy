/** The item views: an item with its last and next booking and its comments,
    the owner's list of items, text search, comments by former bookers and
    the owner's partial update. Read-only operations work on snapshots of
    the tables; the update works on the item store. */
module ItemService {
  import opened Common
  import opened Entities
  import opened Seqs
  import opened Pagination
  import opened Queries
  import opened Text
  import opened ItemMapper
  import opened BookingMapper
  import BookingRepository
  import ItemRepository
  import UserStore
  import ItemStore

  // ---------------------------------------------------------------------
  // Last and next booking

  /** The bookings over before `now`. */
  function Finished(now: int): Booking -> bool { (b: Booking) => b.end < now }

  /** The bookings not over by `now`, ongoing ones included. */
  function Unfinished(now: int): Booking -> bool { (b: Booking) => b.end > now }

  /** `findLastBooking`: the last booking of the list that ended before `now`. */
  function FindLastBooking(bs: seq<Booking>, now: int): (r: Option<Booking>)
    ensures r.None? <==> forall i :: 0 <= i < |bs| ==> bs[i].end >= now
    ensures r.Some? ==>
      exists i :: 0 <= i < |bs| && bs[i] == r.value && r.value.end < now &&
                  forall j :: i < j < |bs| ==> bs[j].end >= now
    decreases |bs|
  {
    if bs == [] then None
    else if bs[|bs| - 1].end < now then Some(bs[|bs| - 1])
    else FindLastBooking(bs[..|bs| - 1], now)
  }

  /** `findNextBooking`: the first booking of the list that has not ended by `now`. */
  function FindNextBooking(bs: seq<Booking>, now: int): (r: Option<Booking>)
    ensures r.None? <==> forall i :: 0 <= i < |bs| ==> bs[i].end <= now
    ensures r.Some? ==>
      exists i :: 0 <= i < |bs| && bs[i] == r.value && r.value.end > now &&
                  forall j :: 0 <= j < i ==> bs[j].end <= now
    decreases |bs|
  {
    if bs == [] then None
    else if bs[0].end > now then Some(bs[0])
    else FindNextBooking(bs[1..], now)
  }

  /** The last booking is the final element of the finished ones, as the
      stream's `filter` then `reduce((first, second) -> second)` computes. */
  lemma {:induction false} LastIsFinalFinished(bs: seq<Booking>, now: int)
    ensures var f := Filter(bs, Finished(now));
      FindLastBooking(bs, now) == if f == [] then None else Some(f[|f| - 1])
  {
    if bs != [] {
      var init, x := bs[..|bs| - 1], bs[|bs| - 1];
      assert bs == init + [x];
      assert bs[..|bs| - 1] == init;
      LastIsFinalFinished(init, now);
      FilterAppend(init, [x], Finished(now));
      FilterSingleton(x, Finished(now));
      var f := Filter(init, Finished(now));
      if x.end < now {
        assert Filter(bs, Finished(now)) == f + [x];
        assert FindLastBooking(bs, now) == Some(x);
      } else {
        assert Filter(bs, Finished(now)) == f + [];
        assert FindLastBooking(bs, now) == FindLastBooking(init, now);
      }
    }
  }

  /** The next booking is the head of the unfinished ones, as the stream's
      `filter` then `reduce((first, second) -> first)` computes. */
  lemma {:induction false} NextIsFirstUnfinished(bs: seq<Booking>, now: int)
    ensures var f := Filter(bs, Unfinished(now));
      FindNextBooking(bs, now) == if f == [] then None else Some(f[0])
  {
    if bs != [] {
      NextIsFirstUnfinished(bs[1..], now);
      FilterCons(bs, Unfinished(now));
    }
  }

  /** Over a start-ascending list the last booking is the finished booking
      that started latest. */
  lemma LastStartedLatest(bs: seq<Booking>, now: int)
    requires forall i, j :: 0 <= i < j < |bs| ==> bs[i].start <= bs[j].start
    ensures FindLastBooking(bs, now).Some? ==>
      forall b :: b in bs && b.end < now ==> b.start <= FindLastBooking(bs, now).value.start
  {
    var r := FindLastBooking(bs, now);
    if r.Some? {
      var i :| 0 <= i < |bs| && bs[i] == r.value && r.value.end < now &&
        forall j :: i < j < |bs| ==> bs[j].end >= now;
      forall b | b in bs && b.end < now ensures b.start <= r.value.start {
        var j :| 0 <= j < |bs| && bs[j] == b;
        assert j <= i;
      }
    }
  }

  /** Over a start-ascending list the next booking is the unfinished booking
      that starts earliest. */
  lemma NextStartsEarliest(bs: seq<Booking>, now: int)
    requires forall i, j :: 0 <= i < j < |bs| ==> bs[i].start <= bs[j].start
    ensures FindNextBooking(bs, now).Some? ==>
      forall b :: b in bs && b.end > now ==> FindNextBooking(bs, now).value.start <= b.start
  {
    var r := FindNextBooking(bs, now);
    if r.Some? {
      var i :| 0 <= i < |bs| && bs[i] == r.value && r.value.end > now &&
        forall j :: 0 <= j < i ==> bs[j].end <= now;
      forall b | b in bs && b.end > now ensures r.value.start <= b.start {
        var j :| 0 <= j < |bs| && bs[j] == b;
        assert i <= j;
      }
    }
  }

  /** A booking ending exactly now is neither the last nor the next one,
      while an ongoing booking can be the next one. */
  lemma EndingNowIsNeither(bs: seq<Booking>, now: int)
    ensures FindLastBooking(bs, now).Some? ==> FindLastBooking(bs, now).value.end != now
    ensures FindNextBooking(bs, now).Some? ==> FindNextBooking(bs, now).value.end != now
    ensures forall b :: b in bs && b.start < now < b.end && FindNextBooking(bs, now).None? ==> false
  {
  }

  /** A single booking in progress is the next booking, and there is no
      last one. */
  lemma InProgressIsNext(b: Booking, now: int)
    requires b.start < now < b.end
    ensures FindLastBooking([b], now) == None
    ensures FindNextBooking([b], now) == Some(b)
  {
  }

  // ---------------------------------------------------------------------
  // Views

  /** The short form of a selected booking; a booking without a booker,
      which the schema rules out, is shown as no booking. */
  function Part(o: Option<Booking>): Option<PartBookingDto>
  {
    if o.Some? && o.value.booker.Some? then Some(ToPartBookingDto(o.value)) else None
  }

  /** `findAllByItemIdOrderByCreatedDesc` of the comment repository: an
      item's comments, newest first. */
  function CommentsOfItem(comments: map<int, Comment>, itemId: int): (r: seq<Comment>)
    ensures forall c :: c in r ==> c in comments.Values && c.item.Some? && c.item.value.id == Some(itemId)
    ensures forall k ::
      (k in comments && comments[k].item.Some? && comments[k].item.value.id == Some(itemId)) ==> comments[k] in r
    ensures forall i, j :: 0 <= i < j < |r| ==> r[i].created >= r[j].created
  {
    Select(comments, (c: Comment) => c.item.Some? && c.item.value.id == Some(itemId),
      (c: Comment) => -c.created, Unpaged)
  }

  /** An item's view with its booking window and its comments, as the owner
      sees it; an item without an id has neither. */
  function OwnerView(bookings: map<int, Booking>, comments: map<int, Comment>,
                     commentView: Comment -> CommentDto, item: Item, now: int): (v: ItemDto)
    ensures v.id == item.id && v.name == item.name
  {
    var bs := if item.id.Some? then BookingRepository.FindAllByItemIdOrderByStart(bookings, item.id.value) else [];
    var cs := if item.id.Some? then CommentsOfItem(comments, item.id.value) else [];
    ToItemDto(item).(lastBooking := Part(FindLastBooking(bs, now)),
                     nextBooking := Part(FindNextBooking(bs, now)),
                     comments := Some(MapSeq(commentView, cs)))
  }

  /** `getItemById`: the item's view; the last and next booking are shown
      only to the item's owner, the comments to everyone. The comment
      mapping is a parameter. */
  function GetItemById(users: map<int, User>, items: map<int, Item>, bookings: map<int, Booking>,
                       comments: map<int, Comment>, commentView: Comment -> CommentDto,
                       userId: int, id: int, now: int): (r: Result<ItemDto>)
    ensures r.Ok? <==> userId in users && id in items
    ensures r.Err? ==> r.error == NotFound
    ensures r.Ok? ==>
      r.value.id == items[id].id && r.value.name == items[id].name &&
      r.value.description == items[id].description && r.value.available == items[id].available
    ensures r.Ok? ==> r.value.requestId == RequestId(items[id])
    ensures r.Ok? && OwnerId(items[id]) != Some(userId) ==>
      r.value.lastBooking == None && r.value.nextBooking == None
    ensures r.Ok? && OwnerId(items[id]) == Some(userId) ==>
      var bs := BookingRepository.FindAllByItemIdOrderByStart(bookings, id);
      r.value.lastBooking == Part(FindLastBooking(bs, now)) &&
      r.value.nextBooking == Part(FindNextBooking(bs, now))
    ensures r.Ok? ==> r.value.comments == Some(MapSeq(commentView, CommentsOfItem(comments, id)))
  {
    if userId !in users then Err(NotFound)
    else if id !in items then Err(NotFound)
    else
      var item := items[id];
      var dto := ToItemDto(item);
      var withBookings :=
        if OwnerId(item) == Some(userId) then
          var bs := BookingRepository.FindAllByItemIdOrderByStart(bookings, id);
          dto.(lastBooking := Part(FindLastBooking(bs, now)), nextBooking := Part(FindNextBooking(bs, now)))
        else dto;
      Ok(withBookings.(comments := Some(MapSeq(commentView, CommentsOfItem(comments, id)))))
  }

  /** `getAllItemsUser`: the views of the user's items in id order, each with
      its booking window and comments. */
  function GetAllItemsUser(users: map<int, User>, items: map<int, Item>, bookings: map<int, Booking>,
                           comments: map<int, Comment>, commentView: Comment -> CommentDto,
                           userId: int, now: int): (r: Result<seq<ItemDto>>)
    ensures r.Ok? <==> userId in users
    ensures r.Err? ==> r.error == NotFound
  {
    if userId !in users then Err(NotFound)
    else
      var owned := ItemRepository.FindAllByOwnerIdOrderById(items, userId, Unpaged);
      Ok(OwnerViews(bookings, comments, commentView, owned, now))
  }

  /** The owner's list holds one view per owned item and no other. */
  lemma OwnerListCoversOwnedItems(users: map<int, User>, items: map<int, Item>,
                                  bookings: map<int, Booking>, comments: map<int, Comment>,
                                  commentView: Comment -> CommentDto, userId: int, now: int)
    requires userId in users
    ensures var all := GetAllItemsUser(users, items, bookings, comments, commentView, userId, now).value;
      (forall d :: d in all ==>
        exists k :: k in items && OwnerId(items[k]) == Some(userId) && d.id == items[k].id) &&
      (forall k :: k in items && OwnerId(items[k]) == Some(userId) ==>
        exists i :: 0 <= i < |all| && all[i].id == items[k].id && all[i].name == items[k].name)
  {
    var owned := ItemRepository.FindAllByOwnerIdOrderById(items, userId, Unpaged);
    ViewsOfOwned(items, userId, owned, OwnerViews(bookings, comments, commentView, owned, now));
  }

  /** The owner's views of `owned`, one per item and in the same order. */
  function OwnerViews(bookings: map<int, Booking>, comments: map<int, Comment>,
                      commentView: Comment -> CommentDto, owned: seq<Item>, now: int): (vs: seq<ItemDto>)
    ensures |vs| == |owned|
    ensures forall i :: 0 <= i < |owned| ==> vs[i] == OwnerView(bookings, comments, commentView, owned[i], now)
  {
    MapSeq(item => OwnerView(bookings, comments, commentView, item, now), owned)
  }

  /** Views that keep each owned item's id and name cover exactly the
      owner's items. */
  lemma ViewsOfOwned(items: map<int, Item>, userId: int, owned: seq<Item>, views: seq<ItemDto>)
    requires |views| == |owned|
    requires forall i :: 0 <= i < |owned| ==> views[i].id == owned[i].id && views[i].name == owned[i].name
    requires forall x :: x in owned ==> x in items.Values && OwnerId(x) == Some(userId)
    requires forall k :: k in items && OwnerId(items[k]) == Some(userId) ==> items[k] in owned
    ensures forall d :: d in views ==>
      exists k :: k in items && OwnerId(items[k]) == Some(userId) && d.id == items[k].id
    ensures forall k :: k in items && OwnerId(items[k]) == Some(userId) ==>
      exists i :: 0 <= i < |views| && views[i].id == items[k].id && views[i].name == items[k].name
  {
    forall d | d in views
      ensures exists k :: k in items && OwnerId(items[k]) == Some(userId) && d.id == items[k].id
    {
      var i :| 0 <= i < |views| && views[i] == d;
      assert owned[i] in owned;
      Tables.KeyOfValue(items, owned[i]);
      var k :| k in items && items[k] == owned[i];
    }
    forall k | k in items && OwnerId(items[k]) == Some(userId)
      ensures exists i :: 0 <= i < |views| && views[i].id == items[k].id && views[i].name == items[k].name
    {
      var i :| 0 <= i < |owned| && owned[i] == items[k];
      assert views[i].id == items[k].id;
    }
  }

  /** For the owner, an item's entry in the owner's list is its lookup view. */
  lemma OwnerViewIsLookup(users: map<int, User>, items: map<int, Item>, bookings: map<int, Booking>,
                          comments: map<int, Comment>, commentView: Comment -> CommentDto,
                          userId: int, k: int, now: int)
    requires userId in users && k in items && items[k].id == Some(k)
    requires OwnerId(items[k]) == Some(userId)
    ensures GetItemById(users, items, bookings, comments, commentView, userId, k, now) ==
      Ok(OwnerView(bookings, comments, commentView, items[k], now))
  {
  }

  /** An owned item, stored under its own id, is shown to its owner by
      `getItemById` exactly as in the owner's list. */
  lemma {:induction false} OwnedEntryIsLookup(users: map<int, User>, items: map<int, Item>,
                                              bookings: map<int, Booking>, comments: map<int, Comment>,
                                              commentView: Comment -> CommentDto, userId: int,
                                              item: Item, now: int)
    requires userId in users && item in items.Values && OwnerId(item) == Some(userId)
    requires forall k :: k in items ==> items[k].id == Some(k)
    ensures item.id.Some?
    ensures GetItemById(users, items, bookings, comments, commentView, userId, item.id.value, now) ==
      Ok(OwnerView(bookings, comments, commentView, item, now))
  {
    Tables.KeyOfValue(items, item);
    var k :| k in items && items[k] == item;
    OwnerViewIsLookup(users, items, bookings, comments, commentView, userId, k, now);
  }

  /** When every item is stored under its own id, each view in the owner's
      list is exactly what `getItemById` shows the owner for that item. */
  lemma OwnerListAgreesWithLookup(users: map<int, User>, items: map<int, Item>,
                                  bookings: map<int, Booking>, comments: map<int, Comment>,
                                  commentView: Comment -> CommentDto, userId: int, now: int)
    requires userId in users
    requires forall k :: k in items ==> items[k].id == Some(k)
    ensures var all := GetAllItemsUser(users, items, bookings, comments, commentView, userId, now).value;
      forall i :: 0 <= i < |all| ==>
        all[i].id.Some? && GetItemById(users, items, bookings, comments, commentView, userId, all[i].id.value, now) == Ok(all[i])
  {
    var owned := ItemRepository.FindAllByOwnerIdOrderById(items, userId, Unpaged);
    var all := OwnerViews(bookings, comments, commentView, owned, now);
    forall i | 0 <= i < |all|
      ensures all[i].id.Some? && GetItemById(users, items, bookings, comments, commentView, userId, all[i].id.value, now) == Ok(all[i])
    {
      assert owned[i] in owned;
      OwnedEntryIsLookup(users, items, bookings, comments, commentView, userId, owned[i], now);
    }
  }

  // ---------------------------------------------------------------------
  // Search and comments

  /** `searchByText`: nothing for a null or blank text, without consulting
      the repository; otherwise the views of exactly the available items
      whose name or description contains the text, ignoring case. */
  function SearchByText(users: map<int, User>, items: map<int, Item>, userId: int, text: Option<string>)
    : (r: Result<seq<ItemDto>>)
    ensures r.Ok? <==> userId in users
    ensures r.Err? ==> r.error == NotFound
    ensures userId in users && (text.None? || IsBlank(text.value)) ==> r == Ok([])
    ensures r.Ok? && text.Some? && !IsBlank(text.value) ==>
      r.value == MatchingViews(items, text.value)
  {
    if userId !in users then Err(NotFound)
    else if text.None? || IsBlank(text.value) then Ok([])
    else Ok(MatchingViews(items, text.value))
  }

  /** The views of the items `findAllByText` finds: each is the view of a
      stored, available item matching the text, and every such item has its
      view there. */
  function MatchingViews(items: map<int, Item>, text: string): (r: seq<ItemDto>)
    ensures forall d :: d in r ==> d.available == Some(true)
    ensures forall d :: d in r ==>
      exists k :: k in items && ItemRepository.MatchesText(items[k], text) && d == ToItemDto(items[k])
    ensures forall k :: k in items && ItemRepository.MatchesText(items[k], text) ==> ToItemDto(items[k]) in r
  {
    var found := ItemRepository.FindAllByText(items, text, Unpaged);
    FoundViews(items, text, found);
    MapSeq(ToItemDto, found)
  }

  /** The views of rows found by the text query, and of every matching row. */
  lemma FoundViews(items: map<int, Item>, text: string, found: seq<Item>)
    requires forall x :: x in found ==> x in items.Values && ItemRepository.MatchesText(x, text)
    requires forall k :: k in items && ItemRepository.MatchesText(items[k], text) ==> items[k] in found
    ensures forall d :: d in MapSeq(ToItemDto, found) ==>
      d.available == Some(true) &&
      exists k :: k in items && ItemRepository.MatchesText(items[k], text) && d == ToItemDto(items[k])
    ensures forall k :: k in items && ItemRepository.MatchesText(items[k], text) ==>
      ToItemDto(items[k]) in MapSeq(ToItemDto, found)
  {
    var r := MapSeq(ToItemDto, found);
    forall k | k in items && ItemRepository.MatchesText(items[k], text) ensures ToItemDto(items[k]) in r {
      MapSeqMember(ToItemDto, found, items[k]);
    }
    forall d | d in r
      ensures d.available == Some(true)
      ensures exists k :: k in items && ItemRepository.MatchesText(items[k], text) && d == ToItemDto(items[k])
    {
      var i :| 0 <= i < |r| && r[i] == d;
      assert found[i] in found;
      Tables.KeyOfValue(items, found[i]);
      var k :| k in items && items[k] == found[i];
      assert d == ToItemDto(items[k]);
    }
  }

  /** The blank-text guard matters: the query itself with an empty text would
      return every available item that has a name. */
  lemma EmptyTextMatchesEverything(item: Item)
    requires item.available == Some(true) && item.name.Some?
    ensures ItemRepository.MatchesText(item, "")
  {
    assert OccursAt(Lower(item.name.value), Lower(""), 0);
  }

  /** The user has a booking of this item that ended before `now`, in any status. */
  predicate HasFinishedBooking(bookings: map<int, Booking>, item: Item, userId: int, now: int)
  {
    item.id.Some? &&
    exists k :: k in bookings && ItemId(bookings[k]) == item.id && BookerId(bookings[k]) == Some(userId) &&
      bookings[k].end < now
  }

  /** `writeComment`: the comment it would save, allowed only to a user with
      a finished booking of the item; owning the item is not enough. */
  function WriteComment(users: map<int, User>, items: map<int, Item>, bookings: map<int, Booking>,
                        userId: int, itemId: int, text: Option<string>, now: int): (r: Result<Comment>)
    ensures userId !in users || itemId !in items ==> r == Err(NotFound)
    ensures r.Ok? <==> userId in users && itemId in items && HasFinishedBooking(bookings, items[itemId], userId, now)
    ensures r.Err? && userId in users && itemId in items ==> r.error == BadRequest
    ensures r.Ok? ==> r.value == Comment(None, text, Some(items[itemId]), Some(users[userId]), now)
  {
    if userId !in users then Err(NotFound)
    else if itemId !in items then Err(NotFound)
    else
      var item := items[itemId];
      var finished :=
        if item.id.Some? then BookingRepository.FindFinishedByItemAndBooker(bookings, item.id.value, userId, now)
        else [];
      FinishedQueryIsGate(bookings, item, userId, now);
      if finished == [] then Err(BadRequest)
      else Ok(Comment(None, text, Some(item), Some(users[userId]), now))
  }

  /** The finished-booking query finds something iff the user has a finished
      booking of the item. */
  lemma FinishedQueryIsGate(bookings: map<int, Booking>, item: Item, userId: int, now: int)
    ensures var finished :=
        if item.id.Some? then BookingRepository.FindFinishedByItemAndBooker(bookings, item.id.value, userId, now)
        else [];
      finished != [] <==> HasFinishedBooking(bookings, item, userId, now)
  {
    if item.id.Some? {
      var finished := BookingRepository.FindFinishedByItemAndBooker(bookings, item.id.value, userId, now);
      if HasFinishedBooking(bookings, item, userId, now) {
        var k :| k in bookings && ItemId(bookings[k]) == item.id && BookerId(bookings[k]) == Some(userId) &&
          bookings[k].end < now;
        assert bookings[k] in finished;
      }
      if finished != [] {
        assert finished[0] in finished;
        Tables.KeyOfValue(bookings, finished[0]);
      }
    }
  }

  // ---------------------------------------------------------------------
  // Partial update

  /** The owner's partial update: a non-null name, description or
      availability in `patch` replaces the stored one; id, owner and request
      are kept. */
  function ApplyPatch(stored: Item, patch: ItemDto): (i: Item)
    ensures i.id == stored.id && i.owner == stored.owner && i.request == stored.request
    ensures i.name == (if patch.name.Some? then patch.name else stored.name)
    ensures i.description == (if patch.description.Some? then patch.description else stored.description)
    ensures i.available == (if patch.available.Some? then patch.available else stored.available)
  {
    var i1 := if patch.name.Some? then stored.(name := patch.name) else stored;
    var i2 := if patch.description.Some? then i1.(description := patch.description) else i1;
    if patch.available.Some? then i2.(available := patch.available) else i2
  }

  /** Repeating an update changes nothing more, and an update with no fields
      changes nothing. */
  lemma ApplyPatchIdempotent(stored: Item, patch: ItemDto)
    ensures ApplyPatch(ApplyPatch(stored, patch), patch) == ApplyPatch(stored, patch)
    ensures ApplyPatch(stored, patch.(name := None, description := None, available := None)) == stored
  {
  }

  /** `change`: NotFound for an unknown user or item or a user who does not
      own the item; otherwise the item is patched in place and its view
      returned. */
  method Change(userRepo: UserStore.UserRepository, itemRepo: ItemStore.ItemRepository,
                userId: int, id: int, patch: ItemDto) returns (r: Result<ItemDto>)
    requires itemRepo.Valid()
    modifies itemRepo
    ensures itemRepo.Valid() && itemRepo.globalId == old(itemRepo.globalId)
    ensures r.Ok? <==>
      userId in userRepo.users && id in old(itemRepo.items) && OwnerId(old(itemRepo.items)[id]) == Some(userId)
    ensures r.Err? ==> r.error == NotFound && itemRepo.items == old(itemRepo.items)
    ensures r.Ok? ==>
      var updated := ApplyPatch(old(itemRepo.items)[id], patch);
      itemRepo.items == old(itemRepo.items)[id := updated] && r.value == ToItemDto(updated)
  {
    var user := userRepo.FindById(userId);
    if user.None? {
      return Err(NotFound);
    }
    var found := itemRepo.FindById(id);
    if found.None? {
      return Err(NotFound);
    }
    var itemInDb := found.value;
    if OwnerId(itemInDb) != Some(userId) {
      return Err(NotFound);
    }
    if patch.name.Some? {
      itemInDb := itemInDb.(name := patch.name);
    }
    if patch.description.Some? {
      itemInDb := itemInDb.(description := patch.description);
    }
    if patch.available.Some? {
      itemInDb := itemInDb.(available := patch.available);
    }
    itemRepo.Overwrite(id, itemInDb);
    r := Ok(ToItemDto(itemInDb));
  }
}
