/** Sums over finite maps, whatever order their entries are visited in. */
module Sums {

  ghost function SumMap<K>(m: map<K, int>): int {
    if m == map[] then 0 else
      var k :| k in m;
      m[k] + SumMap(m - {k})
  }

  /** Any entry can be taken out first. */
  lemma {:induction false} SumMapRemove<K>(m: map<K, int>, k: K)
    requires k in m
    ensures SumMap(m) == m[k] + SumMap(m - {k})
    decreases |m|
  {
    var first :| first in m && SumMap(m) == m[first] + SumMap(m - {first});
    if first != k {
      SumMapRemove(m - {first}, k);
      SumMapRemove(m - {k}, first);
      assert m - {first} - {k} == m - {k} - {first};
    }
  }

  lemma SumMapUpdate<K>(m: map<K, int>, k: K, v: int)
    ensures SumMap(m[k := v]) == SumMap(m) + v - (if k in m then m[k] else 0)
  {
    SumMapRemove(m[k := v], k);
    if k in m {
      SumMapRemove(m, k);
    } else {
      assert m - {k} == m;
    }
    assert m[k := v] - {k} == m - {k};
  }

  /** A sum of non-negative values bounds each of them, and is zero only when all of them are. */
  lemma {:induction false} SumMapBounds<K>(m: map<K, int>)
    requires forall k :: k in m ==> 0 <= m[k]
    ensures 0 <= SumMap(m)
    ensures forall k :: k in m ==> m[k] <= SumMap(m)
    decreases |m|
  {
    if m != map[] {
      var first :| first in m && SumMap(m) == m[first] + SumMap(m - {first});
      SumMapBounds(m - {first});
      forall k | k in m
        ensures m[k] <= SumMap(m)
      {
        if k != first {
          assert m[k] == (m - {first})[k];
        }
      }
    }
  }

  function Within<K>(m: map<K, int>, keys: set<K>): map<K, int> {
    map k | k in m && k in keys :: m[k]
  }

  /** Splitting the keys splits the sum. */
  lemma {:induction false} SumMapSplit<K>(m: map<K, int>, keys: set<K>)
    ensures SumMap(m) == SumMap(Within(m, keys)) + SumMap(m - keys)
    decreases |m|
  {
    var inside := Within(m, keys);
    if m == map[] {
      assert inside == map[] && m - keys == map[];
    } else {
      var first :| first in m && SumMap(m) == m[first] + SumMap(m - {first});
      var rest := m - {first};
      SumMapSplit(rest, keys);
      var restInside := Within(rest, keys);
      if first in keys {
        SumMapRemove(inside, first);
        assert inside - {first} == restInside;
        assert m - keys == rest - keys;
      } else {
        SumMapRemove(m - keys, first);
        assert inside == restInside;
        assert (m - keys) - {first} == rest - keys;
      }
    }
  }
}
