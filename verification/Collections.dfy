/** Sequences of distinct keys and Go's iteration over maps. */
module Collections {

  predicate Distinct<K(==)>(order: seq<K>) {
    forall i, j :: 0 <= i < j < |order| ==> order[i] != order[j]
  }

  /** An order in which Go may range over a map: every key once. */
  ghost predicate IsOrder<K(!new), V>(m: map<K, V>, order: seq<K>) {
    (forall k :: k in order <==> k in m) && Distinct(order)
  }

  /** The values met in that order. */
  function Visit<K, V>(m: map<K, V>, order: seq<K>): seq<V>
    requires forall k :: k in order ==> k in m
  {
    if order == [] then [] else Visit(m, order[..|order| - 1]) + [m[order[|order| - 1]]]
  }

  lemma VisitOneMore<K, V>(m: map<K, V>, order: seq<K>, k: K)
    requires (forall j :: j in order ==> j in m) && k in m
    ensures forall j :: j in order + [k] ==> j in m
    ensures Visit(m, order + [k]) == Visit(m, order) + [m[k]]
  {
    assert (order + [k])[..|order|] == order;
  }

  lemma JoinDistinct<K>(a: seq<K>, b: seq<K>)
    requires Distinct(a) && Distinct(b) && forall k :: k in a ==> k !in b
    ensures Distinct(a + b)
  {
    forall i, j | 0 <= i < j < |a + b|
      ensures (a + b)[i] != (a + b)[j]
    {
      if i < |a| <= j {
        assert (a + b)[i] in a && (a + b)[j] in b;
      }
    }
  }

  lemma {:induction false} Enumerate<K>(keys: set<K>) returns (order: seq<K>)
    ensures Distinct(order) && forall k :: k in order <==> k in keys
  {
    order := [];
    if keys != {} {
      var k :| k in keys;
      var rest := Enumerate(keys - {k});
      order := [k] + rest;
    }
  }

  lemma OccursTwice<T>(s: seq<T>, i: nat, j: nat)
    requires i < j < |s| && s[i] == s[j]
    ensures multiset(s)[s[j]] >= 2
  {
    assert s == s[..j] + [s[j]] + s[j + 1..];
    assert s[..j][i] == s[j];
  }
}
