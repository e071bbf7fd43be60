/** Identifier allocation: the database hands out a key that no existing row has. */
module Ids {

  /** Every finite set of keys is empty or has a member to pick. */
  lemma EmptyOrMember(keys: set<int>)
    ensures keys == {} || exists k :: k in keys
  {
    if !(exists k :: k in keys) {
      assert keys == {};
    }
  }

  /** A strict upper bound of a finite set of integer keys. */
  ghost function UpperBound(keys: set<int>): (bound: int)
    ensures forall k :: k in keys ==> k < bound
    decreases |keys|
  {
    if keys == {} then 0
    else
      EmptyOrMember(keys);
      var k :| k in keys;
      var rest := UpperBound(keys - {k});
      assert forall x :: x in keys ==> x == k || x in keys - {k};
      if k + 1 > rest then k + 1 else rest
  }

  /** The key the store assigns to a newly inserted row of `m`. */
  ghost function FreshId<V>(m: map<int, V>): (id: int)
    ensures id !in m
  {
    UpperBound(m.Keys)
  }
}
