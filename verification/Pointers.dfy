/** Addresses. */
module Pointers {
  type Ptr = nat
  const NULL: Ptr := 0

  lemma UnusedAddress(used: set<Ptr>) returns (p: Ptr)
    ensures p != NULL && p !in used
  {
    if used == {} {
      p := 1;
    } else {
      var m := Greatest(used);
      p := m + 1;
    }
  }

  lemma {:induction false} Greatest(used: set<Ptr>) returns (m: Ptr)
    requires used != {}
    ensures m in used && forall x :: x in used ==> x <= m
    decreases used
  {
    var x :| x in used;
    if used == {x} {
      m := x;
    } else {
      var y := Greatest(used - {x});
      m := if x <= y then y else x;
      forall z | z in used ensures z <= m { assert z != x ==> z in used - {x}; }
    }
  }
}
