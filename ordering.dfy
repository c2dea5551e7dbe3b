/**
 * Lists the keys of a map in an order given by a rank on their values: higher
 * rank first. This is how the model turns a query over the store (a map) into
 * the list a LINQ query returns. Keys of equal rank come out smallest key
 * first, but no contract promises that: the source does not order ties.
 */
module Ordering {

  /** Key `k` with rank `rk` may come before key `j` with rank `rj`. */
  predicate Precedes(rk: int, k: int, rj: int, j: int)
  {
    rk > rj || (rk == rj && k <= j)
  }

  /** `k` is the key of `ks` that comes first. */
  predicate IsFirst<V>(m: map<int, V>, ks: set<int>, rank: V -> int, k: int)
    requires ks <= m.Keys
  {
    k in ks && forall j :: j in ks ==> Precedes(rank(m[k]), k, rank(m[j]), j)
  }

  /** Every non-empty finite set of keys has a first key. */
  lemma {:induction false} FirstExists<V>(m: map<int, V>, ks: set<int>, rank: V -> int)
    requires ks <= m.Keys && ks != {}
    ensures exists k :: IsFirst(m, ks, rank, k)
    decreases |ks|
  {
    if forall j :: j !in ks {
      assert false;
    }
    var x :| x in ks;
    if ks == {x} {
      assert IsFirst(m, ks, rank, x);
    } else {
      FirstExists(m, ks - {x}, rank);
      var y :| IsFirst(m, ks - {x}, rank, y);
      if Precedes(rank(m[x]), x, rank(m[y]), y) {
        assert IsFirst(m, ks, rank, x);
      } else {
        assert IsFirst(m, ks, rank, y);
      }
    }
  }

  /** The keys `ks` of `m`, each once, in non-increasing rank of their values. */
  function KeysInOrder<V>(m: map<int, V>, ks: set<int>, rank: V -> int): (r: seq<int>)
    requires ks <= m.Keys
    ensures |r| == |ks|
    ensures forall i :: 0 <= i < |r| ==> r[i] in ks
    ensures forall k :: k in ks ==> k in r
    ensures forall i, j :: 0 <= i < j < |r| ==> r[i] != r[j]
    ensures forall i, j :: 0 <= i < j < |r| ==> rank(m[r[i]]) >= rank(m[r[j]])
    decreases |ks|
  {
    if ks == {} then []
    else
      FirstExists(m, ks, rank);
      var k :| IsFirst(m, ks, rank, k);
      [k] + KeysInOrder(m, ks - {k}, rank)
  }

  /** The values of `m` at `keys`, in the same order. */
  function RowsAt<V>(m: map<int, V>, keys: seq<int>): (r: seq<V>)
    requires forall i :: 0 <= i < |keys| ==> keys[i] in m
    ensures |r| == |keys|
    ensures forall i :: 0 <= i < |r| ==> r[i] == m[keys[i]]
  {
    seq(|keys|, i requires 0 <= i < |keys| => m[keys[i]])
  }

  /** The rows listed in key order are exactly the rows at the selected keys. */
  lemma {:induction false} RowsInOrderAreSelected<V>(m: map<int, V>, ks: set<int>, rank: V -> int)
    requires ks <= m.Keys
    ensures forall v :: v in RowsAt(m, KeysInOrder(m, ks, rank)) <==> exists k :: k in ks && m[k] == v
  {
    var keys := KeysInOrder(m, ks, rank);
    var rows := RowsAt(m, keys);
    forall v | v in rows
      ensures exists k :: k in ks && m[k] == v
    {
      var i :| 0 <= i < |rows| && rows[i] == v;
      assert keys[i] in ks && m[keys[i]] == v;
    }
    forall v | exists k :: k in ks && m[k] == v
      ensures v in rows
    {
      var k :| k in ks && m[k] == v;
      var i :| 0 <= i < |keys| && keys[i] == k;
      assert rows[i] == v;
    }
  }
}
