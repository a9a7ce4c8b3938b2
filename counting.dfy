/** The counting done by Python's `collections.Counter` on a list: a map from
    each distinct element to its number of occurrences. */
module Counting {

  /** The occurrence count of every element of `s`, built in one pass. Only
      elements that occur are keys, so every value is at least 1. */
  function Tally<K(!new)>(s: seq<K>): (r: map<K, nat>)
    ensures forall k :: k in r <==> k in s
    ensures forall k :: k in r ==> r[k] == multiset(s)[k]
  {
    if s == [] then map[]
    else
      var rest := Tally(s[1..]);
      var k := s[0];
      assert s == [k] + s[1..];
      rest[k := (if k in rest then rest[k] else 0) + 1]
  }

  /** The sum of the values of a map, taken in an unspecified key order. */
  ghost function SumValues<K>(m: map<K, nat>): nat
    decreases |m|
  {
    if m == map[] then 0
    else
      var k :| k in m;
      assert |m - {k}| < |m| by { RemoveKeySize(m, k); }
      m[k] + SumValues(m - {k})
  }

  /** Removing a key present in a map shrinks it by one. */
  lemma RemoveKeySize<K, V>(m: map<K, V>, k: K)
    requires k in m
    ensures |m - {k}| == |m| - 1
  {
    assert (m - {k}).Keys == m.Keys - {k};
  }

  /** The key order chosen by `SumValues` does not matter: any key can be
      taken out first. */
  lemma {:induction false} SumValuesRemove<K>(m: map<K, nat>, k: K)
    requires k in m
    ensures SumValues(m) == m[k] + SumValues(m - {k})
    decreases |m|
  {
    var j :| j in m && SumValues(m) == m[j] + SumValues(m - {j});
    if j != k {
      RemoveKeySize(m, j);
      RemoveKeySize(m, k);
      SumValuesRemove(m - {j}, k);
      SumValuesRemove(m - {k}, j);
      assert m - {j} - {k} == m - {k} - {j};
    }
  }

  /** Counting one more occurrence of `k` raises the sum of the counts by one. */
  lemma SumValuesIncrement<K>(m: map<K, nat>, k: K)
    ensures SumValues(m[k := (if k in m then m[k] else 0) + 1]) == SumValues(m) + 1
  {
    var m' := m[k := (if k in m then m[k] else 0) + 1];
    SumValuesRemove(m', k);
    assert m' - {k} == m - {k};
    if k in m {
      SumValuesRemove(m, k);
    } else {
      assert m - {k} == m;
    }
  }

  /** The counts of a tally add up to the length of the counted sequence. */
  lemma {:induction false} TallyTotal<K(!new)>(s: seq<K>)
    ensures SumValues(Tally(s)) == |s|
  {
    if s != [] {
      var rest := Tally(s[1..]);
      TallyTotal(s[1..]);
      SumValuesIncrement(rest, s[0]);
    }
  }
}
