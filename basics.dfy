/** Small facts shared by the enumerations: powers, distinct values and picking from a set. */
module Basics {

  /** b raised to the n-th power. */
  function Pow(b: nat, n: nat): (r: nat)
    ensures b >= 1 ==> r >= 1
    ensures n == 0 ==> r == 1
  {
    if n == 0 then 1 else b * Pow(b, n - 1)
  }

  /** No value occurs twice. */
  predicate Distinct(s: seq<int>)
  {
    forall i, j :: 0 <= i < j < |s| ==> s[i] != s[j]
  }

  /** Some member of a nonempty set; used before iterating a set with `:|`. */
  lemma Member<T>(s: set<T>) returns (x: T)
    requires s != {}
    ensures x in s
  {
    if forall y :: y !in s {
      assert false;
    }
    x :| x in s;
  }

  /** Some key under which a map stores a given value. */
  lemma KeyOf<K, V>(m: map<K, V>, v: V) returns (k: K)
    requires v in m.Values
    ensures k in m && m[k] == v
  {
    if forall x :: x in m ==> m[x] != v {
      assert false;
    }
    k :| k in m && m[k] == v;
  }
}
