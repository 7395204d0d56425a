/** Offset-based paging: a client sends `from` (an element offset) and
    `size`, and the repositories receive a page index and a page size. */
module Pagination {
  import opened Common

  /** A repository page: everything, or the `index`-th block of `size` rows. */
  datatype Page = Unpaged | PageRequest(index: nat, size: nat)

  function Min(a: int, b: int): int { if a <= b then a else b }

  /** The rows a page selects from a full, ordered result. */
  function Window<T>(s: seq<T>, page: Page): (r: seq<T>)
    ensures page.Unpaged? ==> r == s
    ensures page.PageRequest? ==> |r| <= page.size
    ensures page.PageRequest? && r != [] ==> page.index * page.size + |r| <= |s|
    ensures page.PageRequest? ==>
      forall i :: 0 <= i < |r| ==> r[i] == s[page.index * page.size + i]
    ensures page.PageRequest? && page.index * page.size <= |s| ==>
      |r| == Min(page.size, |s| - page.index * page.size)
    ensures page.PageRequest? && |s| <= page.index * page.size ==> r == []
    ensures forall x :: x in r ==> x in s
  {
    match page
    case Unpaged => s
    case PageRequest(index, size) =>
      var lo := Min(index * size, |s|);
      var hi := Min(index * size + size, |s|);
      s[lo..hi]
  }

  /** Turns optional `from`/`size` query parameters into a page. Both values
      are non-negative where division happens, so Java's truncating `/`
      coincides with Dafny's. */
  function GetPageOrThrow(from: Option<int>, size: Option<int>): (r: Result<Page>)
    ensures (from.None? || size.None?) <==> r == Ok(Unpaged)
    ensures r == Err(BadRequest) <==>
      from.Some? && size.Some? && (size.value <= 0 || from.value < 0)
    ensures r.Err? ==> r.error == BadRequest
    ensures r.Ok? && r.value.PageRequest? ==>
      r.value.size == size.value &&
      r.value.index * r.value.size <= from.value < (r.value.index + 1) * r.value.size
  {
    if size.None? || from.None? then Ok(Unpaged)
    else if size.value <= 0 || from.value < 0 then Err(BadRequest)
    else
      var index := from.value / size.value;
      PageBounds(from.value, size.value);
      Ok(PageRequest(index, size.value))
  }

  /** The page index `from / size` is the page that holds element `from`;
      the offset lands on the page's first element iff it is a multiple of
      the size. */
  lemma PageBounds(from: int, size: int)
    requires from >= 0 && size > 0
    ensures from / size >= 0
    ensures (from / size) * size <= from < (from / size + 1) * size
    ensures (from / size) * size == from <==> from % size == 0
  {
    assert from == (from / size) * size + from % size;
  }

  /** A page request with valid parameters yields a page whose first row is
      the row at offset `from` rounded down to a multiple of `size`. */
  lemma PageStartsAtOffset<T>(s: seq<T>, from: int, size: int)
    requires from >= 0 && size > 0
    requires from - from % size < |s|
    ensures GetPageOrThrow(Some(from), Some(size)).Ok?
    ensures Window(s, GetPageOrThrow(Some(from), Some(size)).value)[0] == s[from - from % size]
  {
    PageBounds(from, size);
    assert (from / size) * size == from - from % size;
  }
}

/** The booking controller keeps its own private copy of the page helper. */
module BookingController {
  import opened Common
  import Pagination

  function GetPageOrThrow(from: Option<int>, size: Option<int>): (r: Result<Pagination.Page>)
    ensures (from.None? || size.None?) <==> r == Ok(Pagination.Unpaged)
    ensures r == Err(BadRequest) <==>
      from.Some? && size.Some? && (size.value <= 0 || from.value < 0)
    ensures r.Err? ==> r.error == BadRequest
  {
    if size.None? || from.None? then Ok(Pagination.Unpaged)
    else if size.value <= 0 || from.value < 0 then Err(BadRequest)
    else Ok(Pagination.PageRequest(from.value / size.value, size.value))
  }

  /** The controller's copy and the shared helper agree on every input. */
  lemma AgreesWithPagination(from: Option<int>, size: Option<int>)
    ensures GetPageOrThrow(from, size) == Pagination.GetPageOrThrow(from, size)
  {
  }
}
