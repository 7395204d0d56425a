/** The queries of the item repository over the items table. */
module ItemRepository {
  import opened Common
  import opened Entities
  import opened Seqs
  import opened Tables
  import opened Pagination
  import opened Queries
  import opened Text

  function ById(item: Item): int { if item.id.Some? then item.id.value else 0 }

  /** `findAllByOwnerIdOrderById`: one owner's items in ascending id order. */
  function FindAllByOwnerIdOrderById(items: map<int, Item>, ownerId: int, page: Page): (r: seq<Item>)
    ensures forall x :: x in r ==> x in items.Values && OwnerId(x) == Some(ownerId)
    ensures page.Unpaged? ==>
      forall id :: id in items && OwnerId(items[id]) == Some(ownerId) ==> items[id] in r
    ensures forall i, j :: 0 <= i < j < |r| ==> ById(r[i]) <= ById(r[j])
  {
    Select(items, x => OwnerId(x) == Some(ownerId), ById, page)
  }

  /** The WHERE clause of `findAllByText`: the item is available and its
      lower-cased name or description contains the lower-cased text. A null
      column never matches. */
  predicate MatchesText(item: Item, text: string)
  {
    ((item.name.Some? && Contains(Lower(item.name.value), Lower(text))) ||
     (item.description.Some? && Contains(Lower(item.description.value), Lower(text)))) &&
    item.available == Some(true)
  }

  function FindAllByText(items: map<int, Item>, text: string, page: Page): (r: seq<Item>)
    ensures forall x :: x in r ==> x in items.Values && MatchesText(x, text)
    ensures forall x :: x in r ==> x.available == Some(true)
    ensures page.Unpaged? ==> forall id :: id in items && MatchesText(items[id], text) ==> items[id] in r
  {
    Select(items, x => MatchesText(x, text), ById, page)
  }

  /** The search ignores case: two texts with the same lower-case form give
      the same result. */
  lemma {:induction false} TextSearchIgnoresCase(items: map<int, Item>, t1: string, t2: string, page: Page)
    requires Lower(t1) == Lower(t2)
    ensures FindAllByText(items, t1, page) == FindAllByText(items, t2, page)
  {
    FilterCongruent(Rows(items), x => MatchesText(x, t1), x => MatchesText(x, t2));
  }

  /** `findAllWithRequestNotNull`: the items made in answer to some request. */
  function FindAllWithRequestNotNull(items: map<int, Item>): (r: seq<Item>)
    ensures forall x :: x in r ==> x in items.Values && x.request.Some?
    ensures forall id :: id in items && items[id].request.Some? ==> items[id] in r
  {
    Select(items, (x: Item) => x.request.Some?, ById, Unpaged)
  }

  /** `findAllByRequestIdNotNull`: the items whose request has an id. */
  function FindAllByRequestIdNotNull(items: map<int, Item>): (r: seq<Item>)
    ensures forall x :: x in r ==> x in items.Values && RequestId(x).Some?
    ensures forall id :: id in items && RequestId(items[id]).Some? ==> items[id] in r
  {
    Select(items, x => RequestId(x).Some?, ById, Unpaged)
  }

  /** `findAllByRequestId`: the items answering request `requestId`. */
  function FindAllByRequestId(items: map<int, Item>, requestId: int): (r: seq<Item>)
    ensures forall x :: x in r ==> x in items.Values && RequestId(x) == Some(requestId)
    ensures forall id :: id in items && RequestId(items[id]) == Some(requestId) ==> items[id] in r
  {
    Select(items, x => RequestId(x) == Some(requestId), ById, Unpaged)
  }

  /** The rows of a table keyed 1, 2 and 3 come in key order. */
  lemma RowsOfThree<V>(a: V, b: V, c: V)
    ensures Rows(map[1 := a, 2 := b, 3 := c]) == [a, b, c]
  {
    var m := map[1 := a, 2 := b, 3 := c];
    var ks := SortedKeys(m.Keys);
    assert m.Keys == {1, 2, 3};
    assert ks[0] == 1 && ks[1] == 2 && ks[2] == 3 by {
      assert ks[0] in m.Keys && ks[1] in m.Keys && ks[2] in m.Keys;
      assert ks[0] < ks[1] < ks[2];
    }
  }

  /** Which of the scenario's texts contain "item". */
  lemma ScenarioTexts()
    ensures Contains(Lower("item"), Lower("item"))
    ensures Contains(Lower("about item"), Lower("item"))
    ensures !Contains(Lower("unknown"), Lower("item"))
    ensures !Contains(Lower("about"), Lower("item"))
  {
    assert Lower("item") == "item";
    assert Lower("about item") == "about item";
    assert Lower("unknown") == "unknown";
    assert Lower("about") == "about";
    assert OccursAt("item", "item", 0);
    assert OccursAt("about item", "item", 6);
    forall i | 0 <= i <= 3 ensures !OccursAt("unknown", "item", i) {
      assert "unknown"[i..i + 4][0] == "unknown"[i] != 'i';
    }
    forall i | 0 <= i <= 1 ensures !OccursAt("about", "item", i) {
      assert "about"[i..i + 4][0] == "about"[i] != 'i';
    }
  }

  /** The repository scenario: of an item named "item", an item described
      "about item" and an item "unknown"/"about", all available, searching
      "item" finds exactly the first two. */
  lemma SearchScenario(owner: User)
    ensures var item1 := Item(Some(1), Some("item"), Some("about"), Some(true), None, Some(owner));
      var item2 := Item(Some(2), Some("test"), Some("about item"), Some(true), None, Some(owner));
      var item3 := Item(Some(3), Some("unknown"), Some("about"), Some(true), None, Some(owner));
      FindAllByText(map[1 := item1, 2 := item2, 3 := item3], "item", Unpaged) == [item1, item2]
  {
    var item1 := Item(Some(1), Some("item"), Some("about"), Some(true), None, Some(owner));
    var item2 := Item(Some(2), Some("test"), Some("about item"), Some(true), None, Some(owner));
    var item3 := Item(Some(3), Some("unknown"), Some("about"), Some(true), None, Some(owner));
    RowsOfThree(item1, item2, item3);
    ScenarioTexts();
    var w := x => MatchesText(x, "item");
    assert w(item1) && w(item2) && !w(item3);
    FilterFirstTwo(item1, item2, item3, w);
    SortTwo(item1, item2, ById);
  }

  /** Filtering three rows of which only the first two qualify. */
  lemma FilterFirstTwo<T(!new)>(a: T, b: T, c: T, p: T -> bool)
    requires p(a) && p(b) && !p(c)
    ensures Filter([a, b, c], p) == [a, b]
  {
    var s := [a, b, c];
    FilterCons(s, p);
    FilterCons(s[1..], p);
    FilterCons(s[2..], p);
    assert s[2..][1..] == [];
  }

  /** Two rows already in key order stay in that order. */
  lemma SortTwo<T(!new)>(a: T, b: T, key: T -> int)
    requires key(a) <= key(b)
    ensures SortBy([a, b], key) == [a, b]
  {
    assert SortBy([b], key) == [b];
    assert [a, b][1..] == [b];
    assert SortBy([a, b], key) == Insert(a, [b], key);
  }
}
