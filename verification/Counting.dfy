/** Finite sets of numbers. */
module Counting {
  function Slots(n: nat): (s: set<int>)
    ensures |s| == n && forall i :: i in s <==> 0 <= i < n
  {
    if n == 0 then {} else Slots(n - 1) + {n - 1}
  }

  lemma {:induction false} NodesCount(chain: seq<nat>)
    requires forall i, j :: 0 <= i < j < |chain| ==> chain[i] != chain[j]
    ensures |set i: int | i in chain| == |chain|
    decreases |chain|
  {
    if chain != [] {
      NodesCount(chain[1..]);
      assert (set i: int | i in chain) == (set i: int | i in chain[1..]) + {chain[0]};
    }
  }

  lemma {:induction false} SubsetSize<T>(a: set<T>, b: set<T>)
    requires a <= b
    ensures |a| <= |b|
  {
    if a != {} {
      var x :| x in a;
      SubsetSize(a - {x}, b - {x});
    }
  }

  /** Distinct numbers below `n`: there are at most `n`, and `n` of them exactly when none is missing. */
  lemma DistinctBelow(chain: seq<nat>, n: nat)
    requires forall i, j :: 0 <= i < j < |chain| ==> chain[i] != chain[j]
    requires forall i :: 0 <= i < |chain| ==> chain[i] < n
    ensures |chain| <= n
    ensures |chain| == n <==> forall p :: 0 <= p < n ==> p in chain
  {
    var nodes: set<int> := set i: int | i in chain;
    NodesCount(chain);
    assert nodes <= Slots(n);
    SubsetSize(nodes, Slots(n));
    if p :| 0 <= p < n && p !in chain {
      SubsetSize(nodes, Slots(n) - {p});
    } else {
      SubsetSize(Slots(n), nodes);
    }
  }
}
