/** Finite sets of numbers. */
module Finite {

  function Elements(ns: seq<nat>): set<nat>
  {
    set n | n in ns
  }

  lemma ElementsSplit(ns: seq<nat>)
    requires ns != []
    ensures Elements(ns) == Elements(ns[..|ns| - 1]) + {ns[|ns| - 1]}
  {
    assert ns == ns[..|ns| - 1] + [ns[|ns| - 1]];
  }

  /** A term for the comprehension below to be triggered by. */
  predicate Under(k: nat, n: nat)
  {
    k < n
  }

  function Range(n: nat): set<nat>
  {
    set k: nat | k < n && Under(k, n)
  }

  lemma {:induction false} RangeSize(n: nat)
    ensures |Range(n)| == n
  {
    if n > 0 {
      RangeSize(n - 1);
      assert Range(n) == Range(n - 1) + {n - 1};
    }
  }

  lemma {:induction false} SubsetSize(a: set<nat>, b: set<nat>)
    requires a <= b
    ensures |a| <= |b| && (|a| == |b| ==> a == b)
  {
    if a != {} {
      var x :| x in a;
      SubsetSize(a - {x}, b - {x});
    }
  }
}
