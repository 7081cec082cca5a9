/** Totals over finite sets of keys, independent of the order in which the keys are visited. */
module Sums {
  ghost function Sum<K(!new)>(keys: set<K>, weight: K -> nat): nat {
    if keys == {} then 0
    else
      var k :| k in keys;
      weight(k) + Sum(keys - {k}, weight)
  }

  lemma {:induction false} SumWithout<K(!new)>(keys: set<K>, weight: K -> nat, k: K)
    requires k in keys
    ensures Sum(keys, weight) == weight(k) + Sum(keys - {k}, weight)
    decreases |keys|
  {
    var j :| j in keys && Sum(keys, weight) == weight(j) + Sum(keys - {j}, weight);
    if j != k {
      SumWithout(keys - {j}, weight, k);
      SumWithout(keys - {k}, weight, j);
      assert keys - {j} - {k} == keys - {k} - {j};
    }
  }

  lemma SumEmpty<K(!new)>(weight: K -> nat)
    ensures Sum({}, weight) == 0
  {
  }

  lemma {:induction false} SumSubset<K(!new)>(part: set<K>, whole: set<K>, weight: K -> nat)
    requires part <= whole
    ensures Sum(part, weight) <= Sum(whole, weight)
    decreases |part|
  {
    if part != {} {
      var k :| k in part;
      SumWithout(part, weight, k);
      SumWithout(whole, weight, k);
      SumSubset(part - {k}, whole - {k}, weight);
    }
  }

  lemma {:induction false} SumCongruence<K(!new)>(keys: set<K>, w: K -> nat, v: K -> nat)
    requires forall k :: k in keys ==> w(k) == v(k)
    ensures Sum(keys, w) == Sum(keys, v)
    decreases |keys|
  {
    if keys != {} {
      var k :| k in keys;
      SumWithout(keys, w, k);
      SumWithout(keys, v, k);
      SumCongruence(keys - {k}, w, v);
    }
  }
}
