/** A derived repository query: scan a table, keep the rows satisfying the
    WHERE clause, order them by an integer key and cut out the requested page. */
module Queries {
  import opened Seqs
  import opened Tables
  import opened Pagination

  function Select<V(==, !new)>(table: map<int, V>, where: V -> bool, key: V -> int, page: Page): (r: seq<V>)
    ensures forall x :: x in r ==> x in table.Values && where(x)
    ensures page.Unpaged? ==> forall k :: k in table && where(table[k]) ==> table[k] in r
    ensures page.Unpaged? ==> |r| == |Filter(Rows(table), where)|
    ensures forall i, j :: 0 <= i < j < |r| ==> key(r[i]) <= key(r[j])
  {
    var all := SortBy(Filter(Rows(table), where), key);
    SortedRowsMembers(table, where, key);
    WindowSorted(all, key, page);
    Window(all, page)
  }

  /** Sorting the matching rows neither adds nor loses a row. */
  lemma SortedRowsMembers<V(!new)>(table: map<int, V>, where: V -> bool, key: V -> int)
    ensures forall x :: x in SortBy(Filter(Rows(table), where), key) ==> x in table.Values && where(x)
    ensures forall k :: k in table && where(table[k]) ==> table[k] in SortBy(Filter(Rows(table), where), key)
  {
    var matching := Filter(Rows(table), where);
    var all := SortBy(matching, key);
    RowsMembers(table);
    forall x | x in all ensures x in matching {
      assert x in multiset(all);
    }
    forall k | k in table && where(table[k]) ensures table[k] in all {
      assert table[k] in multiset(matching);
    }
  }

  /** A page of a query is that page cut from the query's full result. */
  lemma SelectPage<V(!new)>(table: map<int, V>, where: V -> bool, key: V -> int, page: Page)
    ensures Select(table, where, key, page) == Window(Select(table, where, key, Unpaged), page)
  {
  }

  /** A page of an ordered result is ordered. */
  lemma WindowSorted<T>(s: seq<T>, key: T -> int, page: Page)
    requires SortedBy(s, key)
    ensures SortedBy(Window(s, page), key)
  {
    if page.PageRequest? {
      var w := Window(s, page);
      var off := page.index * page.size;
      forall i, j | 0 <= i < j < |w| ensures key(w[i]) <= key(w[j]) {
        assert w[i] == s[off + i] && w[j] == s[off + j];
      }
    }
  }

  /** With no paging, a stricter WHERE clause selects exactly the rows of the
      looser one that also satisfy the extra condition, in the same order. */
  lemma {:induction false} SelectNarrowed<V(!new)>(table: map<int, V>, where: V -> bool,
                                                    extra: V -> bool, both: V -> bool, key: V -> int)
    requires forall x :: both(x) == (where(x) && extra(x))
    ensures Select(table, both, key, Unpaged) == Filter(Select(table, where, key, Unpaged), extra)
  {
    var rows := Rows(table);
    FilterSortBy(Filter(rows, where), key, extra);
    FilterFilter(rows, where, extra, both);
  }
}
