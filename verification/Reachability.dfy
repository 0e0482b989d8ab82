/** Which nodes of a store a tip depends on (src/prism/store.incn), found by the worklist walk and returned in store
    order. */
module Reachability {
  import opened Tables
  import opened Plans

  /** Node i feeds the tip, directly or through other nodes. */
  predicate Feeds(plan: Store, i: nat, tip: nat)
    requires tip < |plan|
    decreases tip
  {
    i == tip || exists k :: 0 <= k < |plan[tip].Inputs()| && Feeds(plan, i, plan[tip].Inputs()[k])
  }

  /** Ids that feed the tip, in store order. */
  function ReachableIds(plan: Store, tip: nat): (ids: seq<nat>)
    requires tip < |plan|
    ensures forall k :: 0 <= k < |ids| ==> ids[k] < |plan| && Feeds(plan, ids[k], tip)
    ensures forall i :: 0 <= i < |plan| && Feeds(plan, i, tip) ==> i in ids
  {
    Kept(seq(|plan|, i requires 0 <= i < |plan| => Feeds(plan, i, tip)))
  }

  /** Feeding is transitive along inputs. */
  lemma {:induction false} FeedsInput(plan: Store, i: nat, j: nat, tip: nat)
    requires tip < |plan| && i < |plan| && Feeds(plan, i, tip) && j in plan[i].Inputs()
    ensures Feeds(plan, j, tip)
    decreases tip
  {
    if i == tip {
      var k :| 0 <= k < |plan[tip].Inputs()| && plan[tip].Inputs()[k] == j;
      assert Feeds(plan, j, plan[tip].Inputs()[k]);
    } else {
      var k :| 0 <= k < |plan[tip].Inputs()| && Feeds(plan, i, plan[tip].Inputs()[k]);
      FeedsInput(plan, i, j, plan[tip].Inputs()[k]);
    }
  }

  // ----- the walk -----

  function Unvisited(visited: seq<bool>): nat {
    if visited == [] then 0
    else Unvisited(visited[..|visited| - 1]) + if visited[|visited| - 1] then 0 else 1
  }

  lemma {:induction false} VisitingShrinks(visited: seq<bool>, i: nat)
    requires i < |visited| && !visited[i]
    ensures Unvisited(visited[i := true]) == Unvisited(visited) - 1
    decreases |visited|
  {
    var n := |visited| - 1;
    if i < n {
      VisitingShrinks(visited[..n], i);
      assert visited[i := true][..n] == visited[..n][i := true];
    } else {
      assert visited[i := true][..n] == visited[..n];
    }
  }

  /** A visited set closed under inputs holds everything that feeds its members. */
  lemma {:induction false} FeedersVisited(plan: Store, visited: seq<bool>, i: nat, tip: nat)
    requires |visited| == |plan| && tip < |plan| && visited[tip] && Feeds(plan, i, tip)
    requires forall j, x :: 0 <= j < |plan| && visited[j] && x in plan[j].Inputs() ==> visited[x]
    ensures i < |plan| && visited[i]
    decreases tip
  {
    if i != tip {
      var k :| 0 <= k < |plan[tip].Inputs()| && Feeds(plan, i, plan[tip].Inputs()[k]);
      FeedersVisited(plan, visited, i, plan[tip].Inputs()[k]);
    }
  }

  lemma AllFeedersVisited(plan: Store, visited: seq<bool>, tip: nat)
    requires |visited| == |plan| && tip < |plan| && visited[tip]
    requires forall j, x :: 0 <= j < |plan| && visited[j] && x in plan[j].Inputs() ==> visited[x]
    ensures forall i: nat :: i < |plan| && Feeds(plan, i, tip) ==> visited[i]
  {
    forall i: nat | i < |plan| && Feeds(plan, i, tip) ensures visited[i] {
      FeedersVisited(plan, visited, i, tip);
    }
  }

  /** The walk so far: only feeders are listed or visited, everything before the cursor is visited, and visited nodes
      have their inputs on the list. */
  predicate Walked(plan: Store, tip: nat, visited: seq<bool>, pending: seq<nat>, cursor: nat) {
    && tip < |plan| && |visited| == |plan| && cursor <= |pending| && tip in pending
    && AllFeed(plan, tip, pending)
    && (forall k :: 0 <= k < cursor ==> visited[pending[k]])
    && (forall i :: 0 <= i < |plan| && visited[i] ==> Feeds(plan, i, tip) && Listed(plan, i, pending))
  }

  predicate AllFeed(plan: Store, tip: nat, pending: seq<nat>)
    requires tip < |plan|
  {
    forall k :: 0 <= k < |pending| ==> pending[k] < |plan| && Feeds(plan, pending[k], tip)
  }

  predicate Listed(plan: Store, i: nat, pending: seq<nat>)
    requires i < |plan|
  {
    forall x :: x in plan[i].Inputs() ==> x in pending
  }

  lemma WalkSkips(plan: Store, tip: nat, visited: seq<bool>, pending: seq<nat>, cursor: nat)
    requires Walked(plan, tip, visited, pending, cursor) && cursor < |pending| && visited[pending[cursor]]
    ensures Walked(plan, tip, visited, pending, cursor + 1)
  {
  }

  lemma WalkVisits(plan: Store, tip: nat, visited: seq<bool>, pending: seq<nat>, cursor: nat)
    requires Walked(plan, tip, visited, pending, cursor) && cursor < |pending|
    ensures var id := pending[cursor];
            Walked(plan, tip, visited[id := true], pending + plan[id].Inputs(), cursor + 1)
  {
    var id := pending[cursor];
    var more := pending + plan[id].Inputs();
    forall k | 0 <= k < |more| ensures more[k] < |plan| && Feeds(plan, more[k], tip) {
      if k >= |pending| {
        FeedsInput(plan, id, plan[id].Inputs()[k - |pending|], tip);
      }
    }
    forall i: nat | i < |plan| && visited[id := true][i] ensures Feeds(plan, i, tip) && Listed(plan, i, more) {
      if i != id {
        assert Listed(plan, i, pending);
      }
    }
  }

  lemma WalkEnds(plan: Store, tip: nat, visited: seq<bool>, pending: seq<nat>)
    requires Walked(plan, tip, visited, pending, |pending|)
    ensures visited == seq(|plan|, i requires 0 <= i < |plan| => Feeds(plan, i, tip))
  {
    forall x | x in pending ensures x < |plan| && visited[x] {
      var k :| 0 <= k < |pending| && pending[k] == x;
    }
    forall j, x | 0 <= j < |plan| && visited[j] && x in plan[j].Inputs() ensures visited[x] {
      assert Listed(plan, j, pending);
    }
    AllFeedersVisited(plan, visited, tip);
  }

  method VisitedIds(visited: seq<bool>) returns (ids: seq<nat>)
    ensures ids == Kept(visited)
  {
    ids := [];
    for k := 0 to |visited|
      invariant ids == Kept(visited[..k])
    {
      assert visited[..k + 1][..k] == visited[..k];
      if visited[k] {
        ids := ids + [k];
      }
    }
    assert visited[..|visited|] == visited;
  }

  /** The worklist walk outward from the tip, then the visited ids in store order. */
  method ReachableNodeIds(plan: Store, tip: nat) returns (ids: seq<nat>)
    requires tip < |plan|
    ensures ids == ReachableIds(plan, tip)
  {
    var visited: seq<bool> := seq(|plan|, _ => false);
    var pending: seq<nat> := [tip];
    var cursor := 0;
    while cursor < |pending|
      invariant Walked(plan, tip, visited, pending, cursor)
      decreases Unvisited(visited), |pending| - cursor
    {
      var id := pending[cursor];
      if visited[id] {
        WalkSkips(plan, tip, visited, pending, cursor);
        cursor := cursor + 1;
        continue;
      }
      WalkVisits(plan, tip, visited, pending, cursor);
      VisitingShrinks(visited, id);
      cursor := cursor + 1;
      visited := visited[id := true];
      pending := pending + plan[id].Inputs();
    }
    WalkEnds(plan, tip, visited, pending);
    ids := VisitedIds(visited);
  }
}
