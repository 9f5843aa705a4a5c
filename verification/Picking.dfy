/** Picking elements out of a sequence, told by their places in it. */
module Picking {
  /** `at` names, in order, elements that are taken, and all those from `from` on; `chosen` are these. */
  ghost predicate Picks<T(!new)>(all: seq<T>, chosen: seq<T>, at: seq<nat>, from: nat, takes: T -> bool) {
    && |at| == |chosen|
    && (forall k :: 0 <= k < |at| ==> from <= at[k] < |all| && chosen[k] == all[at[k]])
    && (forall j, k :: 0 <= j < k < |at| ==> at[j] < at[k])
    && (forall i :: from <= i < |all| ==> (takes(all[i]) <==> i in at))
  }

  lemma PicksNothing<T(!new)>(takes: T -> bool)
    ensures Picks([], [], [], 0, takes)
  {
  }

  /** One more element, and how it is picked. */
  lemma PicksSnoc<T(!new)>(all: seq<T>, chosen: seq<T>, at: seq<nat>, from: nat, takes: T -> bool, v: T)
    requires Picks(all, chosen, at, from, takes) && from <= |all|
    ensures takes(v) ==> Picks(all + [v], chosen + [v], at + [|all|], from, takes)
    ensures !takes(v) ==> Picks(all + [v], chosen, at, from, takes)
  {
    var n := |all|;
    assert n !in at;
    assert forall i :: 0 <= i < n ==> (all + [v])[i] == all[i];
    assert forall i: nat :: i in at + [n] <==> i in at || i == n;
  }

  /** Without the first `d` of them the rest are still all from there on. */
  lemma PicksRest<T(!new)>(all: seq<T>, chosen: seq<T>, at: seq<nat>, from: nat, takes: T -> bool, d: nat)
    requires Picks(all, chosen, at, from, takes) && d < |at|
    ensures Picks(all, chosen[d..], at[d..], at[d], takes)
  {
    var rest := at[d..];
    assert forall k :: 0 <= k < |rest| ==> rest[k] == at[d + k];
    forall i | at[d] <= i < |all|
      ensures i in at <==> i in rest
    {
      if i in at {
        var k :| 0 <= k < |at| && at[k] == i;
        assert rest[k - d] == i;
      }
    }
  }
}
