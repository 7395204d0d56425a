/** The two derived queries over the item requests table: a user's own
    requests, and a page of everybody else's. */
module ItemRequestRepository {
  import opened Common
  import opened Entities
  import opened Pagination
  import opened Queries

  /** The id of the user who made the request, if known. */
  function RequestUserId(r: ItemRequest): Option<int>
  {
    if r.user.Some? then r.user.value.id else None
  }

  function CreatedDesc(r: ItemRequest): int { -r.created }

  /** `findAllByUserIdOrderByCreatedDesc`: all of one user's requests, newest first. */
  function FindAllByUserIdOrderByCreatedDesc(requests: map<int, ItemRequest>, userId: int): (r: seq<ItemRequest>)
    ensures forall x :: x in r ==> x in requests.Values && RequestUserId(x) == Some(userId)
    ensures forall k :: k in requests && RequestUserId(requests[k]) == Some(userId) ==> requests[k] in r
    ensures forall i, j :: 0 <= i < j < |r| ==> r[i].created >= r[j].created
  {
    Select(requests, x => RequestUserId(x) == Some(userId), CreatedDesc, Unpaged)
  }

  /** The WHERE clause of `findAllByUserIdIsNot`: `user_id <> ?` under SQL's
      three-valued logic, so a request without a user never qualifies. */
  predicate ByOtherUser(r: ItemRequest, userId: int)
  {
    RequestUserId(r).Some? && RequestUserId(r) != Some(userId)
  }

  /** `findAllByUserIdIsNot`: a page of the other users' requests, newest
      first (the order every caller asks for). */
  function FindAllByUserIdIsNot(requests: map<int, ItemRequest>, userId: int, page: Page): (r: seq<ItemRequest>)
    ensures forall x :: x in r ==> x in requests.Values && ByOtherUser(x, userId)
    ensures page.Unpaged? ==> forall k :: k in requests && ByOtherUser(requests[k], userId) ==> requests[k] in r
    ensures forall i, j :: 0 <= i < j < |r| ==> r[i].created >= r[j].created
  {
    Select(requests, x => ByOtherUser(x, userId), CreatedDesc, page)
  }

  /** A page of the other users' requests is that page cut from all of them. */
  lemma {:induction false} OthersPage(requests: map<int, ItemRequest>, userId: int, page: Page)
    ensures FindAllByUserIdIsNot(requests, userId, page) ==
      Window(FindAllByUserIdIsNot(requests, userId, Unpaged), page)
  {
    SelectPage(requests, x => ByOtherUser(x, userId), CreatedDesc, page);
  }

  /** Every request with a known user is listed either among the user's own
      requests or among the others', never both. */
  lemma OwnAndOthersPartition(requests: map<int, ItemRequest>, userId: int)
    ensures forall k :: k in requests && RequestUserId(requests[k]).Some? ==>
      (requests[k] in FindAllByUserIdOrderByCreatedDesc(requests, userId) <==>
       requests[k] !in FindAllByUserIdIsNot(requests, userId, Unpaged))
  {
  }
}
