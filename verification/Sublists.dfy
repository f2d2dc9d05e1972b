/** Sublists: some elements of a list, in order, and where they stand. */
module Sublists {
  /** The part consists of the elements at these increasing positions. */
  predicate Sublist<T(==)>(all: seq<T>, part: seq<T>, positions: seq<nat>) {
    && |positions| == |part|
    && (forall k :: 0 <= k < |part| ==> positions[k] < |all| && part[k] == all[positions[k]])
    && forall j, k :: 0 <= j < k < |positions| ==> positions[j] < positions[k]
  }

  /** A longer list has the same sublist, and the one with its last element. */
  lemma SublistMore<T>(all: seq<T>, n: nat, part: seq<T>, positions: seq<nat>)
    requires n == |all| - 1 && Sublist(all[..n], part, positions)
    ensures Sublist(all, part, positions) && Sublist(all, part + [all[n]], positions + [n])
    ensures forall i: nat :: i in positions ==> i < n
    ensures forall i: nat :: i in positions + [n] <==> i in positions || i == n
  {
    assert forall i: nat :: i < n ==> all[..n][i] == all[i];
  }
}
