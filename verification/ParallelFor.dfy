/** Iterations of a parallel loop that have not run yet. A loop that keeps taking an arbitrary member
    runs them in any order. */
module ParallelFor {

  function Iterations(lo: nat, hi: nat): (r: set<nat>)
    ensures forall i: nat :: i in r <==> lo <= i < hi
    decreases hi
  {
    if lo >= hi then {} else Iterations(lo, hi - 1) + {hi - 1}
  }
}
