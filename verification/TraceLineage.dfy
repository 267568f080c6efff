/**
  Seed normalisation and lineage collection of
  frontend/src/shared-composables/useTraceProgress.ts.

  A children map sends an id to the raw child values the server listed for it; values are
  trimmed, and blank ones ignored.  The map may have cycles.
*/
module TraceLineage {
  import opened JsText

  type Id = string
  type ChildrenMap = map<Id, seq<string>>

  ghost predicate Distinct(ids: seq<Id>) {
    forall i, j :: 0 <= i < j < |ids| ==> ids[i] != ids[j]
  }

  /** Append the values that are not blank and not yet present, in order. */
  function AppendNew(ids: seq<Id>, values: seq<string>): seq<Id>
    decreases |values|
  {
    if values == [] then ids
    else
      var id := Trim(values[0]);
      AppendNew(if id == "" || id in ids then ids else ids + [id], values[1..])
  }

  ghost predicate Names(values: seq<string>, id: Id) {
    id != "" && exists i :: 0 <= i < |values| && Trim(values[i]) == id
  }

  /** Nothing present moves, and exactly the named ids are added, once each. */
  lemma {:induction false} AppendNewAdds(ids: seq<Id>, values: seq<string>)
    ensures ids <= AppendNew(ids, values)
    ensures forall id :: id in AppendNew(ids, values) <==> id in ids || Names(values, id)
    ensures forall i, j :: |ids| <= j < |AppendNew(ids, values)| && 0 <= i < j ==>
              AppendNew(ids, values)[i] != AppendNew(ids, values)[j]
    ensures forall j :: |ids| <= j < |AppendNew(ids, values)| ==>
              Trim(AppendNew(ids, values)[j]) == AppendNew(ids, values)[j] != ""
    decreases |values|
  {
    if values != [] {
      var id := Trim(values[0]);
      TrimIsIdempotent(values[0]);
      var more := if id == "" || id in ids then ids else ids + [id];
      AppendNewAdds(more, values[1..]);
      var result := AppendNew(ids, values);
      forall x
        ensures Names(values, x) <==> (x != "" && x == id) || Names(values[1..], x)
      {
        if Names(values, x) && x != id {
          var i :| 0 <= i < |values| && Trim(values[i]) == x;
          assert values[1..][i - 1] == values[i];
        }
        if Names(values[1..], x) {
          var i :| 0 <= i < |values[1..]| && Trim(values[1..][i]) == x;
          assert values[i + 1] == values[1..][i];
        }
      }
      assert forall j :: 0 <= j < |more| ==> result[j] == more[j];
    }
  }

  lemma {:induction false} AppendNewInParts(ids: seq<Id>, a: seq<string>, b: seq<string>)
    ensures AppendNew(ids, a + b) == AppendNew(AppendNew(ids, a), b)
    decreases |a|
  {
    if a == [] {
      assert a + b == b;
    } else {
      var id := Trim(a[0]);
      assert (a + b)[0] == a[0] && (a + b)[1..] == a[1..] + b;
      AppendNewInParts(if id == "" || id in ids then ids else ids + [id], a[1..], b);
    }
  }

  /**
    `normalizeSeedContainerIds`: the direct ids when there are any, else the ids of the
    seed rows.
  */
  method NormalizeSeeds(direct: seq<string>, rows: seq<string>) returns (ids: seq<Id>)
    ensures ids == AppendNew([], if |direct| > 0 then direct else rows)
    ensures Distinct(ids) && forall i :: 0 <= i < |ids| ==> Trim(ids[i]) == ids[i] != ""
    ensures forall id :: id in ids <==> Names(if |direct| > 0 then direct else rows, id)
  {
    var values := if |direct| > 0 then direct else rows;
    var seen: set<Id> := {};
    ids := [];
    for n := 0 to |values|
      invariant ids == AppendNew([], values[..n])
      invariant forall id :: id in seen <==> id in ids
    {
      assert values[..n + 1] == values[..n] + [values[n]];
      AppendNewInParts([], values[..n], [values[n]]);
      var id := Trim(values[n]);
      if id != "" && id !in seen {
        seen := seen + {id};
        ids := ids + [id];
      }
    }
    assert values[..|values|] == values;
    AppendNewAdds([], values);
  }

  // ---------------------------------------------------------------------------
  // Reachability
  // ---------------------------------------------------------------------------

  ghost predicate Edge(g: ChildrenMap, parent: Id, child: Id) {
    parent in g && Names(g[parent], child)
  }

  /** Some walk of exactly `n` steps leads from a seed to `id`. */
  ghost predicate Walk(g: ChildrenMap, seeds: seq<Id>, id: Id, n: nat)
    decreases n
  {
    if n == 0 then id in seeds
    else exists p :: Walk(g, seeds, p, n - 1) && Edge(g, p, id)
  }

  ghost predicate Reachable(g: ChildrenMap, seeds: seq<Id>, id: Id) {
    exists n :: Walk(g, seeds, id, n)
  }

  /** `a` is at most as many steps from the seeds as `b`. */
  ghost predicate NoFarther(g: ChildrenMap, seeds: seq<Id>, a: Id, b: Id) {
    forall n :: Walk(g, seeds, b, n) ==> exists m :: m <= n && Walk(g, seeds, a, m)
  }

  /** The ids found so far with the number of steps each was found at. */
  ghost predicate Found(g: ChildrenMap, seeds: seq<Id>, ids: seq<Id>, depth: seq<nat>) {
    && |depth| == |ids|
    && seeds <= ids
    && (forall i :: 0 <= i < |seeds| ==> depth[i] == 0)
    && (forall i, j :: 0 <= i < j < |ids| ==> depth[i] <= depth[j])
    && (forall i :: 0 <= i < |ids| ==> Walk(g, seeds, ids[i], depth[i]))
    && (forall i, j :: 0 <= i < j < |ids| && |seeds| <= j ==> ids[i] != ids[j])
  }

  /** Every child of the i-th id has been found, at most one step later. */
  ghost predicate Expanded(g: ChildrenMap, ids: seq<Id>, depth: seq<nat>, i: int)
    requires 0 <= i < |ids| == |depth|
  {
    forall child :: Edge(g, ids[i], child) ==> FoundBy(ids, depth, child, depth[i] + 1)
  }

  ghost predicate FoundBy(ids: seq<Id>, depth: seq<nat>, id: Id, d: nat)
    requires |ids| == |depth|
  {
    exists j :: 0 <= j < |ids| && ids[j] == id && depth[j] <= d
  }

  /** New ids were appended, all found at distance `d`. */
  ghost predicate Grown(ids: seq<Id>, depth: seq<nat>, ids': seq<Id>, depth': seq<nat>, d: nat) {
    && |depth| == |ids| && |depth'| == |ids'|
    && ids <= ids' && depth <= depth'
    && forall i :: |ids| <= i < |ids'| ==> depth'[i] == d
  }

  /** Every one of the first `head` ids is expanded. */
  ghost predicate ExpandedBelow(g: ChildrenMap, ids: seq<Id>, depth: seq<nat>, head: nat)
    requires head <= |ids| == |depth|
  {
    head == 0 || (ExpandedBelow(g, ids, depth, head - 1) && Expanded(g, ids, depth, head - 1))
  }

  lemma {:induction false} BelowIncludes(g: ChildrenMap, ids: seq<Id>, depth: seq<nat>, head: nat, i: nat)
    requires i < head <= |ids| == |depth| && ExpandedBelow(g, ids, depth, head)
    ensures Expanded(g, ids, depth, i)
  {
    if i < head - 1 {
      BelowIncludes(g, ids, depth, head - 1, i);
    }
  }

  /** The state of the search when the first `head` ids have left the queue. */
  ghost predicate Wavefront(g: ChildrenMap, seeds: seq<Id>, ids: seq<Id>, depth: seq<nat>, head: nat) {
    && Found(g, seeds, ids, depth)
    && head <= |ids|
    && ExpandedBelow(g, ids, depth, head)
    && (forall i :: head <= i < |ids| ==> depth[i] <= depth[head] + 1)
  }

  lemma {:induction false} ExpandedStays(g: ChildrenMap, ids: seq<Id>, depth: seq<nat>, ids': seq<Id>,
        depth': seq<nat>, d: nat, i: nat)
    requires Grown(ids, depth, ids', depth', d) && i < |ids| && Expanded(g, ids, depth, i)
    ensures Expanded(g, ids', depth', i)
  {
    forall child | Edge(g, ids'[i], child)
      ensures FoundBy(ids', depth', child, depth'[i] + 1)
    {
      var j :| 0 <= j < |ids| && ids[j] == child && depth[j] <= depth[i] + 1;
      assert ids'[j] == child;
    }
  }

  lemma {:induction false} ChildrenAreFound(g: ChildrenMap, seeds: seq<Id>, ids: seq<Id>, depth: seq<nat>,
        ids': seq<Id>,
        depth': seq<nat>, head: nat)
    requires Wavefront(g, seeds, ids, depth, head) && head < |ids| && ids[head] in g
    requires ids' == AppendNew(ids, g[ids[head]]) && Grown(ids, depth, ids', depth', depth[head] + 1)
    ensures Expanded(g, ids', depth', head)
  {
    AppendNewAdds(ids, g[ids[head]]);
    forall child | Edge(g, ids'[head], child)
      ensures FoundBy(ids', depth', child, depth'[head] + 1)
    {
      assert child in ids';
      var j :| 0 <= j < |ids'| && ids'[j] == child;
      assert depth'[j] <= depth[head] + 1 by {
        if j < |ids| {
          assert depth'[j] == depth[j];
        }
      }
    }
  }

  lemma {:induction false} ChildrenKeepFound(g: ChildrenMap, seeds: seq<Id>, ids: seq<Id>, depth: seq<nat>,
        ids': seq<Id>,
        depth': seq<nat>, head: nat)
    requires Wavefront(g, seeds, ids, depth, head) && head < |ids| && ids[head] in g
    requires ids' == AppendNew(ids, g[ids[head]]) && Grown(ids, depth, ids', depth', depth[head] + 1)
    ensures Found(g, seeds, ids', depth')
  {
    AppendNewAdds(ids, g[ids[head]]);
    forall i | 0 <= i < |ids'|
      ensures Walk(g, seeds, ids'[i], depth'[i])
    {
      if i >= |ids| {
        NewIdsAreNamed(ids, g[ids[head]], i);
        assert Walk(g, seeds, ids[head], depth[head]) && Edge(g, ids[head], ids'[i]);
      }
    }
    forall i, j | 0 <= i < j < |ids'|
      ensures depth'[i] <= depth'[j]
    {
      if i < |ids| {
        assert depth[i] <= depth[head] + 1;
      }
    }
    forall i, j | 0 <= i < j < |ids'| && |seeds| <= j
      ensures ids'[i] != ids'[j]
    {
    }
  }

  lemma {:induction false} BoundMoves(ids: seq<Id>, depth: seq<nat>, ids': seq<Id>, depth': seq<nat>, head: nat)
    requires head < |ids| == |depth| && Grown(ids, depth, ids', depth', depth[head] + 1)
    requires forall i :: head <= i < |ids| ==> depth[i] <= depth[head] + 1
    requires forall i, j :: 0 <= i < j < |ids'| ==> depth'[i] <= depth'[j]
    ensures forall i :: head + 1 <= i < |ids'| ==> depth'[i] <= depth'[head + 1] + 1
  {
    forall i | head + 1 <= i < |ids'|
      ensures depth'[i] <= depth'[head + 1] + 1
    {
      assert depth'[head] <= depth'[head + 1];
    }
  }

  lemma {:induction false} AllExpandedStay(g: ChildrenMap, ids: seq<Id>, depth: seq<nat>, ids': seq<Id>,
        depth': seq<nat>, d: nat, head: nat)
    requires Grown(ids, depth, ids', depth', d) && head <= |ids|
    requires ExpandedBelow(g, ids, depth, head)
    ensures ExpandedBelow(g, ids', depth', head)
  {
    if head > 0 {
      AllExpandedStay(g, ids, depth, ids', depth', d, head - 1);
      ExpandedStays(g, ids, depth, ids', depth', d, head - 1);
    }
  }

  lemma {:induction false} LeafIsExpanded(g: ChildrenMap, ids: seq<Id>, depth: seq<nat>, i: nat)
    requires i < |ids| == |depth| && ids[i] !in g
    ensures Expanded(g, ids, depth, i)
  {
  }

  /** Expanding the next id advances the wavefront. */
  lemma {:induction false} WavefrontAdvances(g: ChildrenMap, seeds: seq<Id>, ids: seq<Id>, depth: seq<nat>,
        ids': seq<Id>,
        depth': seq<nat>, head: nat)
    requires Wavefront(g, seeds, ids, depth, head) && head < |ids|
    requires ids' == if ids[head] in g then AppendNew(ids, g[ids[head]]) else ids
    requires Grown(ids, depth, ids', depth', depth[head] + 1)
    ensures Wavefront(g, seeds, ids', depth', head + 1)
  {
    AllExpandedStay(g, ids, depth, ids', depth', depth[head] + 1, head);
    assert Found(g, seeds, ids', depth') && Expanded(g, ids', depth', head) by {
      if ids[head] in g {
        ChildrenKeepFound(g, seeds, ids, depth, ids', depth', head);
        ChildrenAreFound(g, seeds, ids, depth, ids', depth', head);
      } else {
        assert depth' == depth;
        LeafIsExpanded(g, ids, depth, head);
      }
    }
    BoundMoves(ids, depth, ids', depth', head);
  }

  lemma {:induction false} NewIdsAreNamed(ids: seq<Id>, values: seq<string>, i: nat)
    requires |ids| <= i < |AppendNew(ids, values)|
    ensures Names(values, AppendNew(ids, values)[i])
  {
    AppendNewAdds(ids, values);
    var result := AppendNew(ids, values);
    assert result[i] in result;
    assert forall k :: 0 <= k < |ids| ==> ids[k] == result[k] && result[k] != result[i];
  }

  /** Once every found id is expanded, every walk's end has been found, no later than the walk. */
  lemma {:induction false} AllWalksFound(g: ChildrenMap, seeds: seq<Id>, ids: seq<Id>, depth: seq<nat>, id: Id, n: nat)
    requires Found(g, seeds, ids, depth) && ExpandedBelow(g, ids, depth, |ids|)
    requires Walk(g, seeds, id, n)
    ensures FoundBy(ids, depth, id, n)
    decreases n
  {
    if n == 0 {
      var i :| 0 <= i < |seeds| && seeds[i] == id;
      assert ids[i] == id;
    } else {
      var p :| Walk(g, seeds, p, n - 1) && Edge(g, p, id);
      AllWalksFound(g, seeds, ids, depth, p, n - 1);
      var i :| 0 <= i < |ids| && ids[i] == p && depth[i] <= n - 1;
      BelowIncludes(g, ids, depth, |ids|, i);
    }
  }

  ghost predicate ExactlyReachable(g: ChildrenMap, seeds: seq<Id>, ids: seq<Id>) {
    && seeds <= ids
    && (forall id :: id in ids <==> Reachable(g, seeds, id))
    && (forall i, j :: 0 <= i < j < |ids| && |seeds| <= j ==> ids[i] != ids[j])
    && (forall i, j :: 0 <= i < j < |ids| ==> NoFarther(g, seeds, ids[i], ids[j]))
  }

  lemma {:induction false} ExpandedIsExact(g: ChildrenMap, seeds: seq<Id>, ids: seq<Id>, depth: seq<nat>)
    requires Wavefront(g, seeds, ids, depth, |ids|)
    ensures ExactlyReachable(g, seeds, ids)
  {
    forall id
      ensures id in ids <==> Reachable(g, seeds, id)
    {
      if Reachable(g, seeds, id) {
        var n :| Walk(g, seeds, id, n);
        AllWalksFound(g, seeds, ids, depth, id, n);
      }
      if id in ids {
        var i :| 0 <= i < |ids| && ids[i] == id;
        assert Walk(g, seeds, id, depth[i]);
      }
    }
    forall i, j | 0 <= i < j < |ids|
      ensures NoFarther(g, seeds, ids[i], ids[j])
    {
      forall n | Walk(g, seeds, ids[j], n)
        ensures exists m :: m <= n && Walk(g, seeds, ids[i], m)
      {
        AllWalksFound(g, seeds, ids, depth, ids[j], n);
        var k :| 0 <= k < |ids| && ids[k] == ids[j] && depth[k] <= n;
        assert depth[j] <= n;
        assert Walk(g, seeds, ids[i], depth[i]);
      }
    }
  }

  lemma {:induction false} WavefrontStarts(g: ChildrenMap, seeds: seq<Id>)
    ensures Wavefront(g, seeds, seeds, seq(|seeds|, _ => 0), 0)
  {
  }

  lemma {:induction false} ExactIsDistinct(g: ChildrenMap, seeds: seq<Id>, ids: seq<Id>)
    requires ExactlyReachable(g, seeds, ids)
    ensures Distinct(seeds) ==> Distinct(ids)
  {
  }

  lemma {:induction false} QueueMoves(queue: seq<Id>, ids: seq<Id>, ids': seq<Id>, head: nat)
    requires head < |ids| && queue == ids[head..] && ids <= ids'
    ensures queue[1..] + ids'[|ids|..] == ids'[head + 1..]
  {
  }

  // ---------------------------------------------------------------------------
  // The two collectors
  // ---------------------------------------------------------------------------

  ghost function Targets(g: ChildrenMap): set<Id> {
    set p, i | p in g && 0 <= i < |g[p]| :: Trim(g[p][i])
  }

  /** The `for` loop over one id's children: fresh ids go to both lists. */
  method VisitChildren(values: seq<string>, seen0: set<Id>, merged0: seq<Id>, queue0: seq<Id>)
    returns (seen: set<Id>, merged: seq<Id>, queue: seq<Id>)
    requires forall id :: id in seen0 <==> id in merged0
    ensures merged == AppendNew(merged0, values) && |merged| >= |merged0|
    ensures queue == queue0 + merged[|merged0|..]
    ensures forall id :: id in seen <==> id in merged
  {
    seen, merged, queue := seen0, merged0, queue0;
    for n := 0 to |values|
      invariant merged == AppendNew(merged0, values[..n]) && |merged| >= |merged0|
      invariant queue == queue0 + merged[|merged0|..]
      invariant forall id :: id in seen <==> id in merged
    {
      assert values[..n + 1] == values[..n] + [values[n]];
      AppendNewInParts(merged0, values[..n], [values[n]]);
      var id := Trim(values[n]);
      if id != "" && id !in seen {
        seen := seen + {id};
        merged := merged + [id];
        queue := queue + [id];
      }
    }
    assert values[..|values|] == values;
  }

  /** What the `while` loop keeps: `head` ids are visited, the queue holds the others, `seen` the ids found. */
  ghost predicate Walking(g: ChildrenMap, seeds: seq<Id>, seen: set<Id>, merged: seq<Id>, queue: seq<Id>,
        depth: seq<nat>, head: nat)
  {
    && head + |queue| == |merged| && queue == merged[head..]
    && (forall id :: id in seen <==> id in merged)
    && Wavefront(g, seeds, merged, depth, head)
  }

  /** One turn of the `while` loop: the front of the queue is visited. */
  method VisitNext(g: ChildrenMap, ghost seeds: seq<Id>, seen0: set<Id>, merged0: seq<Id>, queue0: seq<Id>,
        ghost depth0: seq<nat>, ghost head: nat)
    returns (seen: set<Id>, merged: seq<Id>, queue: seq<Id>, ghost depth: seq<nat>)
    requires |queue0| > 0 && Walking(g, seeds, seen0, merged0, queue0, depth0, head)
    ensures Walking(g, seeds, seen, merged, queue, depth, head + 1)
    ensures Targets(g) - seen < Targets(g) - seen0 || (seen == seen0 && |queue| < |queue0|)
  {
    seen, merged := seen0, merged0;
    var current := queue0[0];
    queue := queue0[1..];
    if current in g {
      seen, merged, queue := VisitChildren(g[current], seen, merged, queue);
      ProgressOrSame(g, merged0, current, seen0, seen);
      AppendNewAdds(merged0, g[current]);
    }
    QueueMoves(queue0, merged0, merged, head);
    depth := Advance(g, seeds, merged0, depth0, merged, head);
  }

  /**
    `collectAllContainerIds`, forward: the result starts with the seeds, holds exactly the
    reachable ids, repeats nothing the seeds did not repeat, and is in order of distance.
  */
  method CollectForward(seeds: seq<Id>, g: ChildrenMap) returns (merged: seq<Id>)
    ensures ExactlyReachable(g, seeds, merged)
    ensures Distinct(seeds) ==> Distinct(merged)
  {
    var seen := set i | 0 <= i < |seeds| :: seeds[i];
    merged := seeds;
    var queue := seeds;
    ghost var depth: seq<nat> := seq(|seeds|, _ => 0);
    ghost var head := 0;
    WavefrontStarts(g, seeds);
    while |queue| > 0
      invariant Walking(g, seeds, seen, merged, queue, depth, head)
      decreases Targets(g) - seen, |queue|
    {
      seen, merged, queue, depth := VisitNext(g, seeds, seen, merged, queue, depth, head);
      head := head + 1;
    }
    ExpandedIsExact(g, seeds, merged, depth);
    ExactIsDistinct(g, seeds, merged);
  }

  /** The distances after the id at `head` has been visited. */
  ghost function Advance(g: ChildrenMap, seeds: seq<Id>, ids: seq<Id>, depth: seq<nat>, ids': seq<Id>,
        head: nat): (depth': seq<nat>)
    requires Wavefront(g, seeds, ids, depth, head) && head < |ids| && ids <= ids'
    requires ids' == if ids[head] in g then AppendNew(ids, g[ids[head]]) else ids
    ensures Wavefront(g, seeds, ids', depth', head + 1)
  {
    var depth' := depth + seq(|ids'| - |ids|, _ => depth[head] + 1);
    WavefrontAdvances(g, seeds, ids, depth, ids', depth', head);
    depth'
  }

  lemma {:induction false} ProgressOrSame(g: ChildrenMap, ids: seq<Id>, current: Id, seen: set<Id>, seen': set<Id>)
    requires current in g
    requires forall id :: id in seen <==> id in ids
    requires forall id :: id in seen' <==> id in AppendNew(ids, g[current])
    ensures seen <= seen'
    ensures AppendNew(ids, g[current]) == ids || Targets(g) - seen' < Targets(g) - seen
  {
    var values := g[current];
    AppendNewAdds(ids, values);
    var ids' := AppendNew(ids, values);
    if ids' != ids {
      var id := ids'[|ids|];
      NewIdsAreNamed(ids, values, |ids|);
      assert id !in ids;
      var i :| 0 <= i < |values| && Trim(values[i]) == id;
      assert id in Targets(g);
    }
  }

  function Flatten(lists: seq<seq<string>>): seq<string> {
    if lists == [] then [] else lists[0] + Flatten(lists[1..])
  }

  lemma {:induction false} FlattenSnoc(lists: seq<seq<string>>, last: seq<string>)
    ensures Flatten(lists + [last]) == Flatten(lists) + last
  {
    if lists == [] {
      assert lists + [last] == [last];
    } else {
      assert (lists + [last])[1..] == lists[1..] + [last];
      FlattenSnoc(lists[1..], last);
    }
  }

  /** Backward: every listed ancestor once, after the seeds, in the order of the lists. */
  method CollectBackward(seeds: seq<Id>, ancestors: seq<seq<string>>) returns (merged: seq<Id>)
    ensures merged == AppendNew(seeds, Flatten(ancestors))
    ensures seeds <= merged
    ensures forall id :: id in merged <==> id in seeds || Names(Flatten(ancestors), id)
    ensures Distinct(seeds) ==> Distinct(merged)
  {
    var seen := set i | 0 <= i < |seeds| :: seeds[i];
    merged := seeds;
    for n := 0 to |ancestors|
      invariant merged == AppendNew(seeds, Flatten(ancestors[..n]))
      invariant forall id :: id in seen <==> id in merged
    {
      assert ancestors[..n + 1] == ancestors[..n] + [ancestors[n]];
      FlattenSnoc(ancestors[..n], ancestors[n]);
      AppendNewInParts(seeds, Flatten(ancestors[..n]), ancestors[n]);
      var ignored: seq<Id>;
      seen, merged, ignored := VisitChildren(ancestors[n], seen, merged, []);
    }
    assert ancestors[..|ancestors|] == ancestors;
    AppendNewAdds(seeds, Flatten(ancestors));
  }
}
