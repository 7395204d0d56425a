/** Item requests: creating one, listing the caller's own and a page of
    everybody else's, and looking one up; each view carries the items made
    in answer to the request. */
module ItemRequestService {
  import opened Common
  import opened Entities
  import opened Seqs
  import opened Pagination
  import opened Queries
  import opened ItemMapper
  import opened ItemRequestMapper
  import opened ItemRequestRepository
  import ItemRepository

  /** The classifier of the grouping: the view answers request `k`. */
  function HasRequestId(k: int): ItemDto -> bool
  {
    (d: ItemDto) => d.requestId == Some(k)
  }

  /** `groupingBy(ItemDto::getRequestId)`: each request id that occurs maps
      to the views carrying it, in their original order. A null key makes
      the collector fail, so every view must carry a request id. */
  function GroupByRequestId(dtos: seq<ItemDto>): (g: map<int, seq<ItemDto>>)
    requires forall i :: 0 <= i < |dtos| ==> dtos[i].requestId.Some?
    ensures forall k :: k in g <==> exists i :: 0 <= i < |dtos| && dtos[i].requestId == Some(k)
    ensures forall k :: k in g ==> g[k] == Filter(dtos, HasRequestId(k))
  {
    if dtos == [] then map[]
    else
      var init, d := dtos[..|dtos| - 1], dtos[|dtos| - 1];
      var g0 := GroupByRequestId(init);
      var k := d.requestId.value;
      var g := g0[k := (if k in g0 then g0[k] else []) + [d]];
      GroupStep(dtos, g0, g);
      g
  }

  /** Adding one view to a grouping appends it to its own group. */
  lemma GroupStep(dtos: seq<ItemDto>, g0: map<int, seq<ItemDto>>, g: map<int, seq<ItemDto>>)
    requires dtos != [] && dtos[|dtos| - 1].requestId.Some?
    requires var init := dtos[..|dtos| - 1];
      (forall k :: k in g0 <==> exists i :: 0 <= i < |init| && init[i].requestId == Some(k)) &&
      (forall k :: k in g0 ==> g0[k] == Filter(init, HasRequestId(k)))
    requires var d := dtos[|dtos| - 1]; var k := d.requestId.value;
      g == g0[k := (if k in g0 then g0[k] else []) + [d]]
    ensures forall k :: k in g <==> exists i :: 0 <= i < |dtos| && dtos[i].requestId == Some(k)
    ensures forall k :: k in g ==> g[k] == Filter(dtos, HasRequestId(k))
  {
    var init, d := dtos[..|dtos| - 1], dtos[|dtos| - 1];
    assert dtos == init + [d];
    GroupStepKeys(init, d, g0, g);
    forall j | j in g ensures g[j] == Filter(dtos, HasRequestId(j)) {
      GroupStepGroup(init, d, g0, g, j);
    }
  }

  /** The keys after one more view: the old keys and the view's request id. */
  lemma GroupStepKeys(init: seq<ItemDto>, d: ItemDto, g0: map<int, seq<ItemDto>>, g: map<int, seq<ItemDto>>)
    requires d.requestId.Some?
    requires forall k :: k in g0 <==> exists i :: 0 <= i < |init| && init[i].requestId == Some(k)
    requires g.Keys == g0.Keys + {d.requestId.value}
    ensures forall k :: k in g <==> exists i :: 0 <= i < |init + [d]| && (init + [d])[i].requestId == Some(k)
  {
    var dtos := init + [d];
    forall j ensures j in g <==> exists i :: 0 <= i < |dtos| && dtos[i].requestId == Some(j) {
      if j in g0 {
        var i :| 0 <= i < |init| && init[i].requestId == Some(j);
        assert dtos[i] == init[i];
      }
      if j == d.requestId.value {
        assert dtos[|init|] == d;
      }
      if exists i :: 0 <= i < |dtos| && dtos[i].requestId == Some(j) {
        var i :| 0 <= i < |dtos| && dtos[i].requestId == Some(j);
        if i < |init| {
          assert init[i] == dtos[i];
        }
      }
    }
  }

  /** One group after one more view: the old group, extended by the view
      when it carries that request id. */
  lemma GroupStepGroup(init: seq<ItemDto>, d: ItemDto, g0: map<int, seq<ItemDto>>,
                       g: map<int, seq<ItemDto>>, j: int)
    requires d.requestId.Some?
    requires forall k :: k in g0 <==> exists i :: 0 <= i < |init| && init[i].requestId == Some(k)
    requires forall k :: k in g0 ==> g0[k] == Filter(init, HasRequestId(k))
    requires var k := d.requestId.value; g == g0[k := (if k in g0 then g0[k] else []) + [d]]
    requires j in g
    ensures g[j] == Filter(init + [d], HasRequestId(j))
  {
    FilterAppend(init, [d], HasRequestId(j));
    FilterSingleton(d, HasRequestId(j));
    if j !in g0 {
      FilterNone(init, HasRequestId(j));
    }
  }

  /** Each view is grouped under exactly one key, its own request id. */
  lemma GroupedUnderOwnId(dtos: seq<ItemDto>)
    requires forall i :: 0 <= i < |dtos| ==> dtos[i].requestId.Some?
    ensures var g := GroupByRequestId(dtos);
      forall d, k :: d in dtos ==> (k in g && d in g[k] <==> d.requestId == Some(k))
  {
    var g := GroupByRequestId(dtos);
    forall d, k | d in dtos ensures k in g && d in g[k] <==> d.requestId == Some(k) {
      var i :| 0 <= i < |dtos| && dtos[i] == d;
      if d.requestId == Some(k) {
        assert HasRequestId(k)(d);
      }
    }
  }

  /** The views of the items answering request `k`, found through the
      grouping, are the views of `findAllByRequestId(k)`; no group means
      there are none. */
  lemma {:induction false} GroupIsRequestItems(items: map<int, Item>, scanned: seq<Item>,
                                               scan: Item -> bool, k: int)
    requires forall x :: x in scanned ==> RequestId(x).Some?
    requires scanned == Select(items, scan, ItemRepository.ById, Unpaged)
    requires forall x :: (RequestId(x) == Some(k)) == (scan(x) && RequestId(x) == Some(k))
    ensures var dtos := MapSeq(ToItemDto, scanned);
      (forall i :: 0 <= i < |dtos| ==> dtos[i].requestId.Some?) &&
      var g := GroupByRequestId(dtos);
      (k in g ==> g[k] == Answers(items, Some(k))) && (k in g <==> Answers(items, Some(k)) != [])
  {
    var dtos := MapSeq(ToItemDto, scanned);
    ViewsCarryRequestIds(scanned);
    RequestViewsFiltered(items, scanned, scan, k);
    GroupOf(dtos, k, Answers(items, Some(k)));
  }

  /** Items that answer a saved request have views that carry its id. */
  lemma ViewsCarryRequestIds(scanned: seq<Item>)
    requires forall x :: x in scanned ==> RequestId(x).Some?
    ensures forall i :: 0 <= i < |scanned| ==> MapSeq(ToItemDto, scanned)[i].requestId.Some?
  {
    forall i | 0 <= i < |scanned| ensures MapSeq(ToItemDto, scanned)[i].requestId.Some? {
      assert scanned[i] in scanned;
    }
  }

  /** A request id has a group exactly when some view carries it, and the
      group is the filter of the views by that id. */
  lemma GroupOf(dtos: seq<ItemDto>, k: int, expected: seq<ItemDto>)
    requires forall i :: 0 <= i < |dtos| ==> dtos[i].requestId.Some?
    requires Filter(dtos, HasRequestId(k)) == expected
    ensures var g := GroupByRequestId(dtos);
      (k in g ==> g[k] == expected) && (k in g <==> expected != [])
  {
    var g := GroupByRequestId(dtos);
    if k !in g {
      assert forall i :: 0 <= i < |dtos| ==> dtos[i].requestId != Some(k);
      FilterNone(dtos, HasRequestId(k));
    } else {
      assert g[k] == expected;
      var i :| 0 <= i < |dtos| && dtos[i].requestId == Some(k);
      assert HasRequestId(k)(dtos[i]);
      assert dtos[i] in expected;
    }
  }

  /** The views of the scanned items that answer request `k` are the views
      of `findAllByRequestId(k)`, in the same order. */
  lemma {:induction false} RequestViewsFiltered(items: map<int, Item>, scanned: seq<Item>,
                                                scan: Item -> bool, k: int)
    requires scanned == Select(items, scan, ItemRepository.ById, Unpaged)
    requires forall x :: (RequestId(x) == Some(k)) == (scan(x) && RequestId(x) == Some(k))
    ensures Filter(MapSeq(ToItemDto, scanned), HasRequestId(k)) == Answers(items, Some(k))
  {
    var byK := (x: Item) => RequestId(x) == Some(k);
    FilterMap(ToItemDto, scanned, HasRequestId(k), byK);
    SelectNarrowed(items, scan, byK, x => RequestId(x) == Some(k), ItemRepository.ById);
    assert ItemRepository.FindAllByRequestId(items, k) == Filter(scanned, byK);
  }

  /** `createRequest`: NotFound for an unknown user, otherwise the request it
      saves: dated `now`, with the caller's description, made by the caller. */
  function CreateRequest(users: map<int, User>, userId: int, dto: ItemRequestDto, now: int): (r: Result<ItemRequest>)
    ensures r.Ok? <==> userId in users
    ensures r.Err? ==> r.error == NotFound
    ensures r.Ok? ==> r.value == ItemRequest(None, now, dto.description, Some(users[userId]))
  {
    if userId !in users then Err(NotFound)
    else Ok(ToItemRequest(dto, now).(user := Some(users[userId])))
  }

  /** The views of the stored items answering the request with id `id`, and
      of no other item; a request without an id has none. The model lists
      them in item id order, an order the query itself leaves open. */
  function Answers(items: map<int, Item>, id: Option<int>): (a: seq<ItemDto>)
    ensures forall d :: d in a ==> id.Some? && d.requestId == id
    ensures forall d :: d in a ==> exists k :: k in items && RequestId(items[k]) == id && d == ToItemDto(items[k])
    ensures id.Some? ==> forall k :: k in items && RequestId(items[k]) == id ==> ToItemDto(items[k]) in a
  {
    if id.None? then []
    else
      var found := ItemRepository.FindAllByRequestId(items, id.value);
      var a := MapSeq(ToItemDto, found);
      forall k | k in items && RequestId(items[k]) == id ensures ToItemDto(items[k]) in a {
        MapSeqMember(ToItemDto, found, items[k]);
      }
      forall d | d in a
        ensures d.requestId == id
        ensures exists k :: k in items && RequestId(items[k]) == id && d == ToItemDto(items[k])
      {
        var i :| 0 <= i < |a| && a[i] == d;
        assert found[i] in found;
        Tables.KeyOfValue(items, found[i]);
      }
      a
  }

  /** A request as its maker sees it: with the items answering it, an empty
      list when there are none. */
  function OwnView(items: map<int, Item>, req: ItemRequest): ItemRequestDto
  {
    ToItemRequestDto(req).(items := Some(Answers(items, req.id)))
  }

  /** A request as other users see it: with the items answering it, or null
      when there are none. */
  function OthersView(items: map<int, Item>, req: ItemRequest): ItemRequestDto
  {
    var a := Answers(items, req.id);
    ToItemRequestDto(req).(items := if a == [] then None else Some(a))
  }

  /** The view attached through the grouping, with an empty list when the
      request has no group. */
  function WithItems(g: map<int, seq<ItemDto>>, req: ItemRequest): ItemRequestDto
  {
    var d := ToItemRequestDto(req);
    d.(items := Some(if d.id.Some? && d.id.value in g then g[d.id.value] else []))
  }

  /** The view attached through the grouping, with null when the request has
      no group. */
  function WithItemsOrNull(g: map<int, seq<ItemDto>>, req: ItemRequest): ItemRequestDto
  {
    var d := ToItemRequestDto(req);
    d.(items := if d.id.Some? && d.id.value in g then Some(g[d.id.value]) else None)
  }

  /** The grouping of the scanned views attaches to each request exactly its
      answers. */
  ghost predicate GroupsAnswers(items: map<int, Item>, g: map<int, seq<ItemDto>>)
  {
    forall k :: (k in g ==> g[k] == Answers(items, Some(k))) && (k in g <==> Answers(items, Some(k)) != [])
  }

  /** `getAllByUser`'s join: each request with the grouped views of the items
      answering it, or an empty list. */
  function OwnViews(items: map<int, Item>, reqs: seq<ItemRequest>): (r: seq<ItemRequestDto>)
    ensures |r| == |reqs|
    ensures forall i :: 0 <= i < |reqs| ==> r[i] == OwnView(items, reqs[i])
  {
    var scanned := ItemRepository.FindAllByRequestIdNotNull(items);
    GroupIsRequestItemsAll(items, scanned, x => RequestId(x).Some?);
    var g := GroupByRequestId(MapSeq(ToItemDto, scanned));
    var r := MapSeq(req => WithItems(g, req), reqs);
    forall i | 0 <= i < |reqs| ensures r[i] == OwnView(items, reqs[i]) {
      WithItemsAnswers(items, g, reqs[i]);
    }
    r
  }

  lemma WithItemsAnswers(items: map<int, Item>, g: map<int, seq<ItemDto>>, req: ItemRequest)
    requires GroupsAnswers(items, g)
    ensures WithItems(g, req) == OwnView(items, req)
    ensures WithItemsOrNull(g, req) == OthersView(items, req)
  {
    if req.id.Some? {
      assert req.id.value in g ==> g[req.id.value] == Answers(items, req.id);
    }
  }

  /** `GroupIsRequestItems` for every request id at once. */
  lemma GroupIsRequestItemsAll(items: map<int, Item>, scanned: seq<Item>, scan: Item -> bool)
    requires forall x :: x in scanned ==> RequestId(x).Some?
    requires scanned == Select(items, scan, ItemRepository.ById, Unpaged)
    requires forall x :: RequestId(x).Some? ==> scan(x)
    ensures var dtos := MapSeq(ToItemDto, scanned);
      (forall i :: 0 <= i < |dtos| ==> dtos[i].requestId.Some?) &&
      GroupsAnswers(items, GroupByRequestId(dtos))
  {
    forall k ensures var dtos := MapSeq(ToItemDto, scanned);
      (forall i :: 0 <= i < |dtos| ==> dtos[i].requestId.Some?) &&
      var g := GroupByRequestId(dtos);
      (k in g ==> g[k] == Answers(items, Some(k))) && (k in g <==> Answers(items, Some(k)) != [])
    {
      GroupIsRequestItems(items, scanned, scan, k);
    }
  }

  /** `getAllByUser`: the caller's requests, newest first, each with the views
      of exactly the items answering it. */
  function GetAllByUser(users: map<int, User>, requests: map<int, ItemRequest>, items: map<int, Item>,
                        userId: int): (r: Result<seq<ItemRequestDto>>)
    ensures r.Ok? <==> userId in users
    ensures r.Err? ==> r.error == NotFound
    ensures r.Ok? ==>
      var own := FindAllByUserIdOrderByCreatedDesc(requests, userId);
      |r.value| == |own| && forall i :: 0 <= i < |own| ==> r.value[i] == OwnView(items, own[i])
  {
    if userId !in users then Err(NotFound)
    else Ok(OwnViews(items, FindAllByUserIdOrderByCreatedDesc(requests, userId)))
  }

  /** Every stored item that answers a request refers to a saved request,
      one with an id. */
  ghost predicate RequestsSaved(items: map<int, Item>)
  {
    forall k :: k in items && items[k].request.Some? ==> items[k].request.value.id.Some?
  }

  /** `getAll`'s join: each request with the grouped views of the items
      answering it, or null. */
  function OthersViews(items: map<int, Item>, reqs: seq<ItemRequest>): (r: seq<ItemRequestDto>)
    requires RequestsSaved(items)
    ensures |r| == |reqs|
    ensures forall i :: 0 <= i < |reqs| ==> r[i] == OthersView(items, reqs[i])
  {
    var scanned := ItemRepository.FindAllWithRequestNotNull(items);
    forall x | x in scanned ensures RequestId(x).Some? {
      Tables.KeyOfValue(items, x);
    }
    GroupIsRequestItemsAll(items, scanned, (x: Item) => x.request.Some?);
    var g := GroupByRequestId(MapSeq(ToItemDto, scanned));
    var r := MapSeq(req => WithItemsOrNull(g, req), reqs);
    forall i | 0 <= i < |reqs| ensures r[i] == OthersView(items, reqs[i]) {
      WithItemsAnswers(items, g, reqs[i]);
    }
    r
  }

  /** `getAll`: no paging parameters means an empty list; bad ones are
      refused before the caller is looked up; otherwise page `from` (the
      page number, not an offset) of `size` of the other users' requests,
      newest first, each with its items or null. */
  function GetAll(users: map<int, User>, requests: map<int, ItemRequest>, items: map<int, Item>,
                  userId: int, from: Option<int>, size: Option<int>): (r: Result<seq<ItemRequestDto>>)
    requires from.Some? && size.Some? && size.value > 0 && from.value >= 0 && userId in users ==>
      RequestsSaved(items)
    ensures from.None? || size.None? ==> r == Ok([])
    ensures from.Some? && size.Some? && (size.value <= 0 || from.value < 0) ==> r == Err(BadRequest)
    ensures from.Some? && size.Some? && size.value > 0 && from.value >= 0 ==>
      (r.Ok? <==> userId in users) && (r.Err? ==> r.error == NotFound)
    ensures r.Ok? && from.Some? && size.Some? ==>
      var page := FindAllByUserIdIsNot(requests, userId, PageRequest(from.value, size.value));
      |r.value| == |page| && |r.value| <= size.value &&
      forall i :: 0 <= i < |page| ==> r.value[i] == OthersView(items, page[i])
  {
    if size.None? || from.None? then Ok([])
    else if size.value <= 0 || from.value < 0 then Err(BadRequest)
    else if userId !in users then Err(NotFound)
    else
      Ok(OthersViews(items, FindAllByUserIdIsNot(requests, userId, PageRequest(from.value, size.value))))
  }

  /** `getRequestById`: NotFound for an unknown user or request; otherwise
      the request with the views of all items answering it. */
  function GetRequestById(users: map<int, User>, requests: map<int, ItemRequest>, items: map<int, Item>,
                          userId: int, requestId: int): (r: Result<ItemRequestDto>)
    ensures r.Ok? <==> userId in users && requestId in requests
    ensures r.Err? ==> r.error == NotFound
    ensures r.Ok? ==>
      var req := requests[requestId];
      r.value.id == req.id && r.value.created == req.created && r.value.description == req.description &&
      r.value.items.Some? &&
      (forall d :: d in r.value.items.value ==> d.requestId == Some(requestId)) &&
      (forall d :: d in r.value.items.value ==>
         exists k :: k in items && RequestId(items[k]) == Some(requestId) && d == ToItemDto(items[k])) &&
      (forall k :: k in items && RequestId(items[k]) == Some(requestId) ==> ToItemDto(items[k]) in r.value.items.value)
  {
    if userId !in users then Err(NotFound)
    else
      var dtos := Answers(items, Some(requestId));
      if requestId !in requests then Err(NotFound)
      else Ok(ToItemRequestDto(requests[requestId]).(items := Some(dtos)))
  }

  /** When every request is stored under its own id, each entry of the
      caller's list is exactly what `getRequestById` returns for it. */
  lemma OwnListAgreesWithLookup(users: map<int, User>, requests: map<int, ItemRequest>,
                                items: map<int, Item>, userId: int)
    requires userId in users
    requires forall k :: k in requests ==> requests[k].id == Some(k)
    ensures var all := GetAllByUser(users, requests, items, userId).value;
      forall i :: 0 <= i < |all| ==>
        all[i].id.Some? && GetRequestById(users, requests, items, userId, all[i].id.value) == Ok(all[i])
  {
    var own := FindAllByUserIdOrderByCreatedDesc(requests, userId);
    var all := GetAllByUser(users, requests, items, userId).value;
    forall i | 0 <= i < |all|
      ensures all[i].id.Some? && GetRequestById(users, requests, items, userId, all[i].id.value) == Ok(all[i])
    {
      assert all[i] == OwnView(items, own[i]);
      assert own[i] in own;
      OwnEntryIsLookup(users, requests, items, userId, own[i]);
    }
  }

  /** One stored request: its entry in its maker's list is its lookup. */
  lemma OwnEntryIsLookup(users: map<int, User>, requests: map<int, ItemRequest>,
                         items: map<int, Item>, userId: int, req: ItemRequest)
    requires userId in users && req in requests.Values
    requires forall k :: k in requests ==> requests[k].id == Some(k)
    ensures req.id.Some?
    ensures GetRequestById(users, requests, items, userId, req.id.value) == Ok(OwnView(items, req))
  {
    Tables.KeyOfValue(requests, req);
    var k :| k in requests && requests[k] == req;
    assert req.id == Some(k);
  }

  /** In another user's list, an entry shows the same request as
      `getRequestById`, except that no answers is null there and an empty
      list in the lookup. */
  lemma OthersListAgreesWithLookup(users: map<int, User>, requests: map<int, ItemRequest>,
                                   items: map<int, Item>, userId: int, from: int, size: int)
    requires RequestsSaved(items)
    requires userId in users && from >= 0 && size > 0
    requires forall k :: k in requests ==> requests[k].id == Some(k)
    ensures var all := GetAll(users, requests, items, userId, Some(from), Some(size)).value;
      forall i :: 0 <= i < |all| ==>
        all[i].id.Some? &&
        GetRequestById(users, requests, items, userId, all[i].id.value) ==
          Ok(all[i].(items := Some(if all[i].items.Some? then all[i].items.value else [])))
  {
    var page := FindAllByUserIdIsNot(requests, userId, PageRequest(from, size));
    var all := GetAll(users, requests, items, userId, Some(from), Some(size)).value;
    forall i | 0 <= i < |all|
      ensures all[i].id.Some? &&
        GetRequestById(users, requests, items, userId, all[i].id.value) ==
          Ok(all[i].(items := Some(if all[i].items.Some? then all[i].items.value else [])))
    {
      assert all[i] == OthersView(items, page[i]);
      assert page[i] in page;
      OthersEntryIsLookup(users, requests, items, userId, page[i]);
    }
  }

  /** One stored request: its entry in another user's list is its lookup,
      with null answers turned into an empty list. */
  lemma OthersEntryIsLookup(users: map<int, User>, requests: map<int, ItemRequest>,
                            items: map<int, Item>, userId: int, req: ItemRequest)
    requires userId in users && req in requests.Values
    requires forall k :: k in requests ==> requests[k].id == Some(k)
    ensures req.id.Some?
    ensures var v := OthersView(items, req);
      GetRequestById(users, requests, items, userId, req.id.value) ==
        Ok(v.(items := Some(if v.items.Some? then v.items.value else [])))
  {
    Tables.KeyOfValue(requests, req);
    var k :| k in requests && requests[k] == req;
    assert req.id == Some(k);
  }

  /** A request created by a user and saved under a fresh id `k` shows up in
      that user's own list, dated `now`, with the description given. */
  lemma CreatedRequestListed(users: map<int, User>, requests: map<int, ItemRequest>, items: map<int, Item>,
                             userId: int, dto: ItemRequestDto, now: int, k: int)
    requires userId in users && users[userId].id == Some(userId)
    ensures var saved := CreateRequest(users, userId, dto, now).value.(id := Some(k));
      var all := GetAllByUser(users, requests[k := saved], items, userId).value;
      exists i :: 0 <= i < |all| && all[i].id == Some(k) && all[i].created == now &&
        all[i].description == dto.description
  {
    var saved := CreateRequest(users, userId, dto, now).value.(id := Some(k));
    var stored := requests[k := saved];
    var own := FindAllByUserIdOrderByCreatedDesc(stored, userId);
    assert RequestUserId(stored[k]) == Some(userId);
    assert saved in own;
    var i :| 0 <= i < |own| && own[i] == saved;
    var all := GetAllByUser(users, stored, items, userId).value;
    assert all[i] == OwnView(items, saved);
  }
}
