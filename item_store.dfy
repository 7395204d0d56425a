/** The in-memory item store: a hash map from id to item and a counter that
    hands out the next id. */
module ItemStore {
  import opened Common
  import opened Entities
  import Tables

  class ItemRepository {
    var items: map<int, Item>
    var globalId: int

    /** The counter is positive and above every id in use, so the next id
        handed out is fresh. */
    ghost predicate Valid()
      reads this
    {
      globalId >= 1 && forall k :: k in items ==> k < globalId
    }

    constructor ()
      ensures Valid()
      ensures items == map[] && globalId == 1
    {
      items := map[];
      globalId := 1;
    }

    /** `findById`: the stored item, or nothing. */
    function FindById(id: int): (r: Option<Item>)
      reads this
      ensures r.Some? <==> id in items
      ensures r.Some? ==> r.value == items[id]
    {
      if id in items then Some(items[id]) else None
    }

    /** `add`: takes the next id, writes it into the item and stores the item
        under it; the counter moves past it for good. */
    method Add(item: Item) returns (id: int)
      requires Valid()
      modifies this
      ensures Valid()
      ensures id == old(globalId) && globalId == id + 1
      ensures id !in old(items) && forall k :: k in old(items) ==> k < id
      ensures items == old(items)[id := item.(id := Some(id))]
    {
      id := globalId;
      globalId := globalId + 1;
      items := items[id := item.(id := Some(id))];
    }

    /** `overwrite`: puts `item` under `id`, whatever was there. */
    method Overwrite(id: int, item: Item)
      requires Valid()
      modifies this
      ensures items == old(items)[id := item] && globalId == old(globalId)
      ensures id < globalId ==> Valid()
    {
      items := items[id := item];
    }

    /** `delete`: removes `id` if present; the counter is untouched, so the
        id is never handed out again. */
    method Delete(id: int)
      requires Valid()
      modifies this
      ensures Valid()
      ensures items == old(items) - {id} && globalId == old(globalId)
    {
      items := items - {id};
    }

    /** `findAll`: every stored item once, as the stream of the map's
        values; `keys` records under which id each one is stored. */
    method FindAll() returns (r: seq<Item>, ghost keys: seq<int>)
      ensures |r| == |items|
      ensures forall x :: x in r ==> x in items.Values
      ensures forall k :: k in items ==> items[k] in r
      ensures |keys| == |r|
      ensures forall i :: 0 <= i < |r| ==> keys[i] in items && r[i] == items[keys[i]]
      ensures forall k :: k in items ==> k in keys
      ensures forall i, j :: 0 <= i < j < |keys| ==> keys[i] != keys[j]
    {
      r, keys := [], [];
      var rest := items.Keys;
      while rest != {}
        invariant rest <= items.Keys
        invariant |keys| == |r| && |r| + |rest| == |items|
        invariant forall i :: 0 <= i < |r| ==> keys[i] in items && keys[i] !in rest && r[i] == items[keys[i]]
        invariant forall k :: k in items ==> k in rest || k in keys
        invariant forall i, j :: 0 <= i < j < |keys| ==> keys[i] != keys[j]
        decreases rest
      {
        Tables.NonEmptyHasMember(rest);
        var k :| k in rest;
        r, keys := r + [items[k]], keys + [k];
        rest := rest - {k};
      }
      forall k | k in items ensures items[k] in r {
        var i :| 0 <= i < |keys| && keys[i] == k;
        assert r[i] == items[k];
      }
      forall x | x in r ensures x in items.Values {
        var i :| 0 <= i < |r| && r[i] == x;
        assert items[keys[i]] == x;
      }
    }
  }
}
