/** The sorted key lists both printers iterate over. */
module Ascending {

  predicate Ascends(a: seq<nat>) {
    forall i, j :: 0 <= i < j < |a| ==> a[i] < a[j]
  }

  predicate IsLeast(s: set<nat>, m: nat) {
    m in s && forall x :: x in s ==> m <= x
  }

  lemma {:induction false} LeastExists(s: set<nat>, y: nat)
    requires y in s
    ensures exists m :: IsLeast(s, m)
    decreases y
  {
    if !IsLeast(s, y) {
      var z :| z in s && z < y;
      LeastExists(s, z);
    }
  }

  /** `sorted(s)`. */
  function Sorted(s: set<nat>): (a: seq<nat>)
    ensures Ascends(a)
    ensures forall x :: x in a <==> x in s
  {
    if s == {} then []
    else
      assert exists m :: IsLeast(s, m) by {
        var y :| y in s;
        LeastExists(s, y);
      }
      var m :| IsLeast(s, m);
      [m] + Sorted(s - {m})
  }

  /** An ascending sequence is the only ascending listing of its elements. */
  lemma {:induction false} SortedUnique(a: seq<nat>, b: seq<nat>)
    requires Ascends(a) && Ascends(b)
    requires forall x :: x in a <==> x in b
    ensures a == b
  {
    assert a != [] ==> a[0] in a;
    assert b != [] ==> b[0] in b;
    if a != [] {
      assert a[0] == b[0];
      forall x
        ensures x in a[1..] <==> x in b[1..]
      {
        assert x in a[1..] <==> x in a && x != a[0];
        assert x in b[1..] <==> x in b && x != b[0];
      }
      SortedUnique(a[1..], b[1..]);
    }
  }
}
