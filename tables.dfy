/** A database table as a map from primary key to row; a scan reads the rows
    in ascending key order. */
module Tables {

  /** The least key of a non-empty key set. */
  function MinKey(ks: set<int>): (m: int)
    requires ks != {}
    ensures m in ks && forall k :: k in ks ==> m <= k
  {
    MinKeyExists(ks);
    var m :| m in ks && forall k :: k in ks ==> m <= k; m
  }

  /** A non-empty key set has a member. */
  lemma NonEmptyHasMember(ks: set<int>)
    requires ks != {}
    ensures exists k :: k in ks
  {
    if forall k :: k !in ks {
      assert false;
    }
  }

  /** A row of the table is stored under some key. */
  lemma KeyOfValue<V>(m: map<int, V>, v: V)
    requires v in m.Values
    ensures exists k :: k in m && m[k] == v
  {
    if forall k :: k in m ==> m[k] != v {
      assert false;
    }
  }

  lemma {:induction false} MinKeyExists(ks: set<int>)
    requires ks != {}
    ensures exists m :: m in ks && forall k :: k in ks ==> m <= k
  {
    NonEmptyHasMember(ks);
    var x :| x in ks;
    if ks == {x} {
      assert forall k :: k in ks ==> x <= k;
    } else {
      var rest := ks - {x};
      MinKeyExists(rest);
      var m :| m in rest && forall k :: k in rest ==> m <= k;
      var least := if x < m then x else m;
      forall k | k in ks ensures least <= k {
        if k != x { assert k in rest; }
      }
      assert least in ks;
    }
  }

  /** The keys in strictly ascending order. */
  function SortedKeys(ks: set<int>): (r: seq<int>)
    ensures |r| == |ks|
    ensures forall k :: k in r <==> k in ks
    ensures forall i, j :: 0 <= i < j < |r| ==> r[i] < r[j]
    decreases ks
  {
    if ks == {} then []
    else
      var m := MinKey(ks);
      [m] + SortedKeys(ks - {m})
  }

  /** The rows of a table, in ascending key order. */
  function Rows<V>(m: map<int, V>): (r: seq<V>)
    ensures |r| == |m|
    ensures forall i :: 0 <= i < |r| ==> r[i] == m[SortedKeys(m.Keys)[i]]
  {
    var ks := SortedKeys(m.Keys);
    seq(|ks|, i requires 0 <= i < |ks| => m[ks[i]])
  }

  /** Every row of the table is read by a scan, and nothing else is. */
  lemma RowsMembers<V>(m: map<int, V>)
    ensures forall k :: k in m ==> m[k] in Rows(m)
    ensures forall v :: v in Rows(m) ==> v in m.Values
  {
    var ks, r := SortedKeys(m.Keys), Rows(m);
    forall k | k in m ensures m[k] in r {
      var i :| 0 <= i < |ks| && ks[i] == k;
      assert r[i] == m[k];
    }
  }
}
