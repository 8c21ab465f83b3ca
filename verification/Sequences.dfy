/** The two ends of a non-empty sequence. */
module Sequences {

  function Init<T>(s: seq<T>): seq<T>
    requires s != []
  {
    s[..|s| - 1]
  }

  function Last<T>(s: seq<T>): T
    requires s != []
  {
    s[|s| - 1]
  }

  lemma {:induction false} InitLast<T>(s: seq<T>)
    requires s != []
    ensures Init(s) + [Last(s)] == s && |Init(s)| == |s| - 1 && Last(s) == s[|s| - 1]
    ensures forall k :: 0 <= k < |s| - 1 ==> Init(s)[k] == s[k]
  {
  }

  /** `kept` is what remains of `all`, in order, when exactly the elements that `keeps` are kept; `at`
      says where each of them stood. */
  ghost predicate Picks<T(!new)>(kept: seq<T>, all: seq<T>, keeps: T -> bool, at: seq<nat>) {
    && |at| == |kept|
    && (forall i :: 0 <= i < |at| ==> at[i] < |all| && kept[i] == all[at[i]])
    && (forall i, j :: 0 <= i < j < |at| ==> at[i] < at[j])
    && forall j: nat :: j < |all| ==> (keeps(all[j]) <==> j in at)
  }

  lemma {:induction false} PicksNothing<T(!new)>(keeps: T -> bool)
    ensures Picks([], [], keeps, [])
  {
  }

  lemma {:induction false} PicksMore<T(!new)>(kept: seq<T>, all: seq<T>, keeps: T -> bool, at: seq<nat>, x: T)
    requires Picks(kept, all, keeps, at)
    ensures if keeps(x) then Picks(kept + [x], all + [x], keeps, at + [|all|]) else Picks(kept, all + [x], keeps, at)
  {
    forall j: nat | j < |all| + 1
      ensures keeps((all + [x])[j]) <==> j in if keeps(x) then at + [|all|] else at
    {
      if j == |all| { assert forall i :: 0 <= i < |at| ==> at[i] != |all|; }
    }
  }
}
