/** Breadth-first neighbour search, bounded in hops and in results. */
module NeighborSearch {
  import opened Sequences
  import opened StableSort

  /** Outgoing edges, after the edge-type filter, of every stored node. */
  type Graph = map<int, seq<int>>

  function Targets(g: Graph, n: int): seq<int> {
    if n in g then g[n] else []
  }

  function Clamp(x: int, low: int, high: int): int {
    var y := if x < high then x else high;
    if y > low then y else low
  }

  /** The nodes at most `hops` edges away from `start`, over stored nodes. */
  ghost function Within(g: Graph, start: int, hops: nat): set<int> {
    if hops == 0 then {start}
    else
      var near := Within(g, start, hops - 1);
      near + set n | n in g && exists p :: p in near && n in Targets(g, p)
  }

  /** A walk along edges to stored nodes. */
  ghost predicate IsWalk(g: Graph, walk: seq<int>) {
    forall i :: 0 <= i < |walk| - 1 ==> StepAt(g, walk, i)
  }

  ghost predicate StepAt(g: Graph, walk: seq<int>, i: nat)
    requires i + 1 < |walk|
  {
    walk[i + 1] in g && walk[i + 1] in Targets(g, walk[i])
  }

  ghost predicate WalksTo(g: Graph, start: int, n: int, hops: nat, walk: seq<int>) {
    1 <= |walk| <= hops + 1 && walk[0] == start && walk[|walk| - 1] == n && IsWalk(g, walk)
  }

  /** Within some hops are exactly the nodes that a walk of at most so many edges leads to. */
  lemma WithinIsWalk(g: Graph, start: int, hops: nat, n: int)
    ensures n in Within(g, start, hops) <==> exists walk :: WalksTo(g, start, n, hops, walk)
  {
    if n in Within(g, start, hops) {
      var walk := WalkTo(g, start, hops, n);
    }
    if walk :| WalksTo(g, start, n, hops, walk) {
      WalkIsWithin(g, start, hops, n, walk);
    }
  }

  lemma {:induction false} WalkTo(g: Graph, start: int, hops: nat, n: int) returns (walk: seq<int>)
    requires n in Within(g, start, hops)
    ensures WalksTo(g, start, n, hops, walk)
  {
    if hops == 0 {
      walk := [start];
    } else if n in Within(g, start, hops - 1) {
      walk := WalkTo(g, start, hops - 1, n);
    } else {
      var p :| p in Within(g, start, hops - 1) && n in g && n in Targets(g, p);
      walk := WalkTo(g, start, hops - 1, p);
      OneStepMore(g, start, p, n, hops - 1, walk);
      walk := walk + [n];
    }
  }

  lemma {:induction false} WalkIsWithin(g: Graph, start: int, hops: nat, n: int, walk: seq<int>)
    requires WalksTo(g, start, n, hops, walk)
    ensures n in Within(g, start, hops)
  {
    if |walk| == 1 {
      WithinGrows(g, start, 0, hops);
    } else {
      OneStepLess(g, start, n, hops, walk);
      WalkIsWithin(g, start, hops - 1, walk[|walk| - 2], walk[..|walk| - 1]);
    }
  }

  lemma OneStepMore(g: Graph, start: int, p: int, n: int, hops: nat, walk: seq<int>)
    requires WalksTo(g, start, p, hops, walk) && n in g && n in Targets(g, p)
    ensures WalksTo(g, start, n, hops + 1, walk + [n])
  {
    var longer := walk + [n];
    forall i: nat | i < |longer| - 1 ensures StepAt(g, longer, i) {
      assert i < |walk| - 1 ==> StepAt(g, walk, i);
    }
  }

  lemma OneStepLess(g: Graph, start: int, n: int, hops: nat, walk: seq<int>)
    requires hops > 0 && |walk| >= 2 && WalksTo(g, start, n, hops, walk)
    ensures WalksTo(g, start, walk[|walk| - 2], hops - 1, walk[..|walk| - 1])
    ensures n in g && n in Targets(g, walk[|walk| - 2])
  {
    var init := walk[..|walk| - 1];
    assert StepAt(g, walk, |walk| - 2);
    forall i: nat | i < |init| - 1 ensures StepAt(g, init, i) {
      assert StepAt(g, walk, i);
    }
  }

  /** The nodes to be found: stored, not the start itself, at most `hops` away. */
  ghost function Found(g: Graph, start: int, hops: nat): set<int> {
    Within(g, start, hops) - {start}
  }

  lemma {:induction false} WithinGrows(g: Graph, start: int, i: nat, j: nat)
    requires i <= j
    ensures Within(g, start, i) <= Within(g, start, j)
    decreases j
  {
    if i < j {
      WithinGrows(g, start, i, j - 1);
    }
  }

  // ---- The state of the search ----

  datatype Entry = Entry(node: int, depth: nat)

  ghost predicate HasParent(g: Graph, order: seq<Entry>, i: nat)
    requires i < |order|
  {
    exists p :: 0 <= p < |order| && order[i].node in Targets(g, order[p].node) && order[i].depth == order[p].depth + 1
  }

  ghost predicate Reached(order: seq<Entry>, n: int, hops: nat) {
    exists i :: 0 <= i < |order| && order[i].node == n && order[i].depth <= hops
  }

  /** `order` is everything ever queued, in order; the queue is `order[head..]`. */
  ghost predicate Shape(g: Graph, start: int, order: seq<Entry>, head: nat) {
    && order != [] && order[0] == Entry(start, 0) && head <= |order|
    && InLevels(order, head)
    && Linked(g, order)
  }

  /** Nodes are queued once, level by level, at most one level ahead of the head. */
  ghost predicate InLevels(order: seq<Entry>, head: nat) {
    && (forall i, j :: 0 <= i < j < |order| ==> order[i].node != order[j].node)
    && (forall i, j :: 0 <= i < j < |order| ==> order[i].depth <= order[j].depth)
    && (head < |order| ==> forall i :: 0 <= i < |order| ==> order[i].depth <= order[head].depth + 1)
  }

  ghost predicate Linked(g: Graph, order: seq<Entry>) {
    && (forall i :: 0 < i < |order| ==> order[i].node in g)
    && (forall i {:trigger HasParent(g, order, i)} :: 0 < i < |order| ==> HasParent(g, order, i))
  }

  /** Every stored target of a dequeued node was queued, at most one level further. */
  ghost predicate Closed(g: Graph, order: seq<Entry>, head: nat) {
    forall p, n :: 0 <= p < head && p < |order| && n in Targets(g, order[p].node) && n in g ==>
      Reached(order, n, order[p].depth + 1)
  }

  /** The visited set is the queued nodes and some that are not stored. */
  ghost predicate Marked(g: Graph, order: seq<Entry>, visited: set<int>) {
    && (forall i :: 0 <= i < |order| ==> order[i].node in visited)
    && (forall n :: n in visited && n in g ==> exists i :: 0 <= i < |order| && order[i].node == n)
  }

  function Nodes(order: seq<Entry>): (r: seq<int>)
    ensures |r| == |order| && forall i :: 0 <= i < |order| ==> r[i] == order[i].node
  {
    seq(|order|, i requires 0 <= i < |order| => order[i].node)
  }

  // ---- Depths are distances ----

  lemma {:induction false} QueuedIsWithin(g: Graph, start: int, order: seq<Entry>, head: nat, i: nat)
    requires Shape(g, start, order, head) && i < |order|
    ensures order[i].node in Within(g, start, order[i].depth)
    decreases order[i].depth
  {
    if i == 0 {
    } else {
      assert HasParent(g, order, i);
      var p :| 0 <= p < |order| && order[i].node in Targets(g, order[p].node) && order[i].depth == order[p].depth + 1;
      QueuedIsWithin(g, start, order, head, p);
    }
  }

  /** A node first reached in `h` hops has a parent one hop nearer. */
  lemma LastHop(g: Graph, start: int, h: nat, n: int) returns (p: int)
    requires h > 0 && n in Within(g, start, h) && n !in Within(g, start, h - 1)
    ensures p in Within(g, start, h - 1) && n in Targets(g, p) && n in g
  {
    p :| p in Within(g, start, h - 1) && n in Targets(g, p);
  }

  lemma TargetIsReached(g: Graph, order: seq<Entry>, head: nat, i: nat, n: int, h: nat)
    requires Closed(g, order, head) && i < head && i < |order| && order[i].depth < h
    requires n in Targets(g, order[i].node) && n in g
    ensures Reached(order, n, h)
  {
    WeakenReached(order, n, order[i].depth + 1, h);
  }

  /** Once everything nearer than `h` is dequeued, the ball of radius `h` is queued. */
  lemma {:induction false} BallIsQueued(g: Graph, start: int, order: seq<Entry>, head: nat, h: nat, n: int)
    requires order != [] && order[0] == Entry(start, 0) && Closed(g, order, head)
    requires forall i :: 0 <= i < |order| && order[i].depth < h ==> i < head
    requires n in Within(g, start, h)
    ensures Reached(order, n, h)
    decreases h
  {
    if h == 0 {
      assert order[0].node == n;
    } else if n in Within(g, start, h - 1) {
      BallIsQueued(g, start, order, head, h - 1, n);
      WeakenReached(order, n, h - 1, h);
    } else {
      var p := LastHop(g, start, h, n);
      BallIsQueued(g, start, order, head, h - 1, p);
      var i: nat :| i < |order| && order[i].node == p && order[i].depth <= h - 1;
      TargetIsReached(g, order, head, i, n, h);
    }
  }

  lemma WeakenReached(order: seq<Entry>, n: int, h: nat, k: nat)
    requires Reached(order, n, h) && h <= k
    ensures Reached(order, n, k)
  {
  }

  /** Nothing closer than a queued node is missing from what was queued before it. */
  lemma NearerIsQueuedEarlier(g: Graph, start: int, order: seq<Entry>, head: nat, i: nat, h: nat, n: int)
    requires Shape(g, start, order, head) && Closed(g, order, head)
    requires i < |order| && order[i].depth > h && n in Within(g, start, h)
    ensures exists k :: 0 <= k < i && order[k].node == n && order[k].depth <= h
  {
    forall j | 0 <= j < |order| && order[j].depth < h ensures j < head {
    }
    BallIsQueued(g, start, order, head, h, n);
    var k :| 0 <= k < |order| && order[k].node == n && order[k].depth <= h;
  }

  // ---- The search ----

  ghost predicate Searching(g: Graph, start: int, order: seq<Entry>, head: nat, visited: set<int>) {
    Shape(g, start, order, head) && Closed(g, order, head) && Marked(g, order, visited)
  }

  lemma VisitedIsReached(g: Graph, start: int, order: seq<Entry>, head: nat, visited: set<int>, target: int)
    requires Searching(g, start, order, head, visited) && head < |order| && target in visited
    ensures target in g ==> Reached(order, target, order[head].depth + 1)
  {
  }

  lemma UnstoredIsMarked(g: Graph, start: int, order: seq<Entry>, head: nat, visited: set<int>, target: int)
    requires Searching(g, start, order, head, visited) && target !in g
    ensures Searching(g, start, order, head, visited + {target})
  {
  }

  /** Queueing a new stored target of the head. */
  lemma Queued(g: Graph, start: int, order: seq<Entry>, head: nat, visited: set<int>, target: int)
    requires Searching(g, start, order, head, visited) && head < |order|
    requires target in Targets(g, order[head].node) && target in g && target !in visited
    ensures Searching(g, start, order + [Entry(target, order[head].depth + 1)], head, visited + {target})
    ensures Reached(order + [Entry(target, order[head].depth + 1)], target, order[head].depth + 1)
  {
    var e := Entry(target, order[head].depth + 1);
    assert (order + [e])[|order|] == e;
    QueuedInLevels(order, head, e);
    QueuedLinked(g, order, head, e);
    QueuedClosed(g, order, head, e);
    QueuedMarked(g, order, visited, e);
  }

  lemma QueuedInLevels(order: seq<Entry>, head: nat, e: Entry)
    requires InLevels(order, head) && head < |order| && e.depth == order[head].depth + 1
    requires forall i :: 0 <= i < |order| ==> order[i].node != e.node
    ensures InLevels(order + [e], head)
  {
  }

  lemma QueuedLinked(g: Graph, order: seq<Entry>, head: nat, e: Entry)
    requires Linked(g, order) && head < |order| && e.depth == order[head].depth + 1
    requires e.node in Targets(g, order[head].node) && e.node in g
    ensures Linked(g, order + [e])
  {
    var order' := order + [e];
    forall i | 0 < i < |order'| ensures order'[i].node in g && HasParent(g, order', i) {
      if i < |order| {
        assert HasParent(g, order, i);
        var p :| 0 <= p < |order| && order[i].node in Targets(g, order[p].node) && order[i].depth == order[p].depth + 1;
        assert order'[p] == order[p];
      } else {
        assert order'[head] == order[head];
      }
    }
  }

  lemma ReachedSnoc(order: seq<Entry>, e: Entry, n: int, h: nat)
    requires Reached(order, n, h)
    ensures Reached(order + [e], n, h)
  {
    var i :| 0 <= i < |order| && order[i].node == n && order[i].depth <= h;
    assert (order + [e])[i] == order[i];
  }

  lemma QueuedClosed(g: Graph, order: seq<Entry>, head: nat, e: Entry)
    requires Closed(g, order, head) && head < |order|
    ensures Closed(g, order + [e], head)
  {
    forall p, n | 0 <= p < head && p < |order + [e]| && n in Targets(g, (order + [e])[p].node) && n in g
      ensures Reached(order + [e], n, (order + [e])[p].depth + 1)
    {
      assert (order + [e])[p] == order[p];
      ReachedSnoc(order, e, n, order[p].depth + 1);
    }
  }

  lemma QueuedMarked(g: Graph, order: seq<Entry>, visited: set<int>, e: Entry)
    requires Marked(g, order, visited)
    ensures Marked(g, order + [e], visited + {e.node})
  {
    var order' := order + [e];
    assert order'[|order|] == e;
    forall n | n in visited + {e.node} && n in g ensures exists i :: 0 <= i < |order'| && order'[i].node == n {
      if n != e.node {
        var i :| 0 <= i < |order| && order[i].node == n;
        assert order'[i] == order[i];
      }
    }
  }

  /** What following the first `j` edges of the head has achieved. */
  ghost predicate Following(g: Graph, start: int, head: nat, s: Bfs, s': Bfs, edges: seq<int>, j: nat) {
    && head < |s.order|
    && Searching(g, start, s'.order, head, s'.visited)
    && s.order <= s'.order && s.visited <= s'.visited
    && (g.Keys - s'.visited == g.Keys - s.visited ==> s'.order == s.order)
    && (forall i :: |s.order| <= i < |s'.order| ==> s'.order[i].depth == s.order[head].depth + 1)
    && AllReached(g, s'.order, edges, j, s.order[head].depth + 1)
  }

  /** The stored ones of the first `j` targets are queued. */
  ghost predicate AllReached(g: Graph, order: seq<Entry>, edges: seq<int>, j: nat, depth: nat) {
    forall k :: 0 <= k < j && k < |edges| && edges[k] in g ==> Reached(order, edges[k], depth)
  }

  datatype Bfs = Bfs(order: seq<Entry>, visited: set<int>)

  /** One edge: mark an unseen target, and queue it if it is stored. */
  function Follow(g: Graph, s: Bfs, target: int, depth: nat): Bfs {
    if target in s.visited then s
    else if target in g then Bfs(s.order + [Entry(target, depth + 1)], s.visited + {target})
    else Bfs(s.order, s.visited + {target})
  }

  lemma FollowSeen(g: Graph, start: int, head: nat, s: Bfs, s': Bfs, edges: seq<int>, j: nat)
    requires Following(g, start, head, s, s', edges, j) && j < |edges| && edges[j] in s'.visited
    ensures Following(g, start, head, s, Follow(g, s', edges[j], s.order[head].depth), edges, j + 1)
  {
    assert s'.order[head] == s.order[head];
    VisitedIsReached(g, start, s'.order, head, s'.visited, edges[j]);
  }

  lemma FollowUnstored(g: Graph, start: int, head: nat, s: Bfs, s': Bfs, edges: seq<int>, j: nat)
    requires Following(g, start, head, s, s', edges, j) && j < |edges|
    requires edges[j] !in g && edges[j] !in s'.visited
    ensures Following(g, start, head, s, Follow(g, s', edges[j], s.order[head].depth), edges, j + 1)
  {
    UnstoredIsMarked(g, start, s'.order, head, s'.visited, edges[j]);
    assert g.Keys - (s'.visited + {edges[j]}) == g.Keys - s'.visited;
  }

  lemma FollowStored(g: Graph, start: int, head: nat, s: Bfs, s': Bfs, edges: seq<int>, j: nat)
    requires Following(g, start, head, s, s', edges, j) && j < |edges|
    requires edges == Targets(g, s.order[head].node) && edges[j] in g && edges[j] !in s'.visited
    ensures Following(g, start, head, s, Follow(g, s', edges[j], s.order[head].depth), edges, j + 1)
  {
    var e := Entry(edges[j], s.order[head].depth + 1);
    assert s'.order[head] == s.order[head];
    Queued(g, start, s'.order, head, s'.visited, edges[j]);
    QueuedKeepsReached(g, s'.order, e, edges, j);
    assert e.node in g.Keys - s.visited && e.node !in g.Keys - (s'.visited + {e.node});
    assert Follow(g, s', edges[j], s.order[head].depth) == Bfs(s'.order + [e], s'.visited + {e.node});
    assert forall i :: |s.order| <= i < |s'.order + [e]| ==> (s'.order + [e])[i].depth == e.depth;
  }

  lemma QueuedKeepsReached(g: Graph, order: seq<Entry>, e: Entry, edges: seq<int>, j: nat)
    requires j < |edges| && edges[j] == e.node && AllReached(g, order, edges, j, e.depth)
    ensures AllReached(g, order + [e], edges, j + 1, e.depth)
  {
    assert (order + [e])[|order|] == e;
    forall k | 0 <= k < j && edges[k] in g ensures Reached(order + [e], edges[k], e.depth) {
      ReachedSnoc(order, e, edges[k], e.depth);
    }
  }

  lemma FollowKeeps(g: Graph, start: int, head: nat, s: Bfs, s': Bfs, edges: seq<int>, j: nat)
    requires Following(g, start, head, s, s', edges, j) && j < |edges| && edges == Targets(g, s.order[head].node)
    ensures Following(g, start, head, s, Follow(g, s', edges[j], s.order[head].depth), edges, j + 1)
  {
    if edges[j] in s'.visited {
      FollowSeen(g, start, head, s, s', edges, j);
    } else if edges[j] in g {
      FollowStored(g, start, head, s, s', edges, j);
    } else {
      FollowUnstored(g, start, head, s, s', edges, j);
    }
  }

  lemma HeadDone(g: Graph, start: int, head: nat, s: Bfs, now: Bfs)
    requires head < |s.order|
    requires var edges := Targets(g, s.order[head].node);
      Following(g, start, head, s, now, edges, |edges|)
    ensures Searching(g, start, now.order, head + 1, now.visited)
  {
    var edges := Targets(g, s.order[head].node);
    assert now.order[head] == s.order[head];
    forall n | n in edges && n in g ensures Reached(now.order, n, now.order[head].depth + 1) {
      var k :| 0 <= k < |edges| && edges[k] == n;
    }
  }

  /** Dequeues the head and follows all its edges: what is new is queued one level further. */
  method ExpandHead(g: Graph, ghost start: int, ghost head: nat, current: Entry, s: Bfs) returns (now: Bfs)
    requires Searching(g, start, s.order, head, s.visited) && head < |s.order| && current == s.order[head]
    ensures Searching(g, start, now.order, head + 1, now.visited)
    ensures s.order <= now.order && forall i :: |s.order| <= i < |now.order| ==> now.order[i].depth == current.depth + 1
    ensures s.visited <= now.visited && (g.Keys - now.visited == g.Keys - s.visited ==> now.order == s.order)
  {
    now := s;
    var edges := Targets(g, current.node);
    for j := 0 to |edges|
      invariant Following(g, start, head, s, now, edges, j)
    {
      FollowKeeps(g, start, head, s, now, edges, j);
      now := Follow(g, now, edges[j], current.depth);
    }
    HeadDone(g, start, head, s, now);
  }

  /** What a caller gets: see `GetNeighbors`. */
  ghost predicate NearestFirst(g: Graph, start: int, hops: nat, limit: nat, r: seq<int>) {
    && |r| == (if |Found(g, start, hops)| < limit then |Found(g, start, hops)| else limit)
    && Distinct(r)
    && (forall n :: n in r ==> n in Found(g, start, hops))
    && (forall i, j, h: nat :: 0 <= i < j < |r| && r[j] in Within(g, start, h) ==> r[i] in Within(g, start, h))
    && (forall n, i, h: nat :: n in Found(g, start, hops) && n !in r && 0 <= i < |r| && n in Within(g, start, h) ==>
          r[i] in Within(g, start, h))
  }

  ghost predicate WithinHops(order: seq<Entry>, hops: nat) {
    forall i :: 0 <= i < |order| ==> order[i].depth <= hops
  }

  lemma StillWithinHops(order: seq<Entry>, order': seq<Entry>, depth: nat, hops: nat)
    requires WithinHops(order, hops) && order <= order' && depth < hops
    requires forall i :: |order| <= i < |order'| ==> order'[i].depth == depth + 1
    ensures WithinHops(order', hops)
  {
  }

  lemma FewerUnseen(all: set<int>, visited: set<int>, visited': set<int>)
    requires visited <= visited'
    ensures all - visited' == all - visited || all - visited' < all - visited
  {
    assert all - visited' <= all - visited;
  }

  /** The queue loop: stops at the hop bound, with enough results, or with nothing left. */
  method Explore(g: Graph, start: int, hops: nat, most: nat)
    returns (order: seq<Entry>, ghost head: nat, ghost visited: set<int>)
    ensures Searching(g, start, order, head, visited)
    ensures WithinHops(order, hops)
    ensures head == |order| || order[head].depth >= hops || |order| - 1 >= most
  {
    var s := Bfs([Entry(start, 0)], {start});
    var next: nat := 0;
    while next < |s.order|
      invariant Searching(g, start, s.order, next, s.visited)
      invariant WithinHops(s.order, hops)
      decreases g.Keys - s.visited, |s.order| - next
    {
      var current := s.order[next];
      if current.depth >= hops || |s.order| - 1 >= most {
        break;
      }
      var now := ExpandHead(g, start, next, current, s);
      StillWithinHops(s.order, now.order, current.depth, hops);
      FewerUnseen(g.Keys, s.visited, now.visited);
      s, next := now, next + 1;
    }
    order, head, visited := s.order, next, s.visited;
  }

  /** Exactly min(limit, R) distinct nodes out of the R that are stored, not the start and
      within the hop bound; no node comes before one that is nearer, and no node left out
      is nearer than one returned. */
  method GetNeighbors(g: Graph, start: int, maxHops: int, limit: int) returns (neighbors: seq<int>)
    ensures NearestFirst(g, start, if maxHops < 1 then 1 else if maxHops > 5 then 5 else maxHops,
                         if limit > 10 then limit else 10, neighbors)
  {
    var hops: nat := Clamp(maxHops, 1, 5);
    var most: nat := if limit > 10 then limit else 10;
    var order: seq<Entry>;
    ghost var head, visited;
    order, head, visited := Explore(g, start, hops, most);
    neighbors := Take(Nodes(order[1..]), most);
    Finished(g, start, order, head, visited, hops, most);
  }

  ghost predicate QueuedBefore(order: seq<Entry>, i: nat, n: int) {
    exists k :: 0 <= k < i && k < |order| && order[k].node == n
  }

  /** A queued node lies in every ball that holds a node not queued before it. */
  lemma NoneNearer(g: Graph, start: int, order: seq<Entry>, head: nat, i: nat, h: nat, n: int)
    requires Shape(g, start, order, head) && Closed(g, order, head) && i < |order| && n in Within(g, start, h)
    ensures order[i].node in Within(g, start, h) || QueuedBefore(order, i, n)
  {
    if order[i].depth <= h {
      QueuedIsWithin(g, start, order, head, i);
      WithinGrows(g, start, order[i].depth, h);
    } else {
      NearerIsQueuedEarlier(g, start, order, head, i, h, n);
    }
  }

  lemma QueuedIsFound(g: Graph, start: int, order: seq<Entry>, head: nat, hops: nat, i: nat)
    requires Shape(g, start, order, head) && 0 < i < |order| && order[i].depth <= hops
    ensures order[i].node in Found(g, start, hops)
  {
    QueuedIsWithin(g, start, order, head, i);
    WithinGrows(g, start, order[i].depth, hops);
    assert order[0].node != order[i].node;
  }

  lemma ResultCount(g: Graph, start: int, order: seq<Entry>, head: nat, hops: nat, most: nat, r: seq<int>)
    requires Shape(g, start, order, head) && Closed(g, order, head)
    requires head == |order| || order[head].depth >= hops || |order| - 1 >= most
    requires r == Take(Nodes(order[1..]), most) && Distinct(r)
    requires forall n :: n in r ==> n in Found(g, start, hops)
    ensures |r| == if |Found(g, start, hops)| < most then |Found(g, start, hops)| else most
  {
    DistinctSize(r);
    SubsetSize(AsSet(r), Found(g, start, hops));
    if |r| < most {
      forall n | n in Found(g, start, hops) ensures n in r {
        AllAreQueued(g, start, order, head, hops, n);
        var i :| 0 <= i < |order| && order[i].node == n && order[i].depth <= hops;
        assert Nodes(order[1..])[i - 1] == n;
      }
      assert AsSet(r) == Found(g, start, hops);
    }
  }

  lemma AllAreQueued(g: Graph, start: int, order: seq<Entry>, head: nat, hops: nat, n: int)
    requires Shape(g, start, order, head) && Closed(g, order, head)
    requires head == |order| || order[head].depth >= hops
    requires n in Within(g, start, hops)
    ensures Reached(order, n, hops)
  {
    forall i | 0 <= i < |order| && order[i].depth < hops ensures i < head { }
    BallIsQueued(g, start, order, head, hops, n);
  }

  /** The result lists the queued nodes after the start. */
  ghost predicate Lists(order: seq<Entry>, r: seq<int>) {
    |r| < |order| && forall k :: 0 <= k < |r| ==> r[k] == order[k + 1].node
  }

  lemma NodesOnce(order: seq<Entry>, head: nat, i: nat, j: nat)
    requires InLevels(order, head) && i < j < |order|
    ensures !QueuedBefore(order, i, order[j].node)
  {
  }

  lemma EarlierIsNearer(g: Graph, start: int, order: seq<Entry>, head: nat, i: nat, j: nat, h: nat)
    requires Shape(g, start, order, head) && Closed(g, order, head)
    requires i < j < |order| && order[j].node in Within(g, start, h)
    ensures order[i].node in Within(g, start, h)
  {
    NodesOnce(order, head, i, j);
    NoneNearer(g, start, order, head, i, h, order[j].node);
  }

  lemma OmittedIsNotQueued(order: seq<Entry>, r: seq<int>, i: nat, n: int)
    requires Lists(order, r) && i < |r| && n !in r && n != order[0].node
    ensures !QueuedBefore(order, i + 1, n)
  {
    forall k | 0 <= k < i + 1 ensures order[k].node != n {
      if k > 0 {
        assert order[k].node == r[k - 1] && r[k - 1] in r;
      }
    }
  }

  lemma OmittedIsFarther(g: Graph, start: int, order: seq<Entry>, head: nat, i: nat, r: seq<int>, n: int, h: nat)
    requires Shape(g, start, order, head) && Closed(g, order, head) && Lists(order, r)
    requires n != start && n !in r && i < |r| && n in Within(g, start, h)
    ensures r[i] in Within(g, start, h)
  {
    OmittedIsNotQueued(order, r, i, n);
    NoneNearer(g, start, order, head, i + 1, h, n);
  }

  lemma InOrderOfDistance(g: Graph, start: int, order: seq<Entry>, head: nat, r: seq<int>)
    requires Shape(g, start, order, head) && Closed(g, order, head) && Lists(order, r)
    ensures forall i, j, h: nat :: 0 <= i < j < |r| && r[j] in Within(g, start, h) ==> r[i] in Within(g, start, h)
    ensures forall n, i, h: nat :: n != start && n !in r && 0 <= i < |r| && n in Within(g, start, h) ==>
      r[i] in Within(g, start, h)
  {
    forall i, j, h: nat | 0 <= i < j < |r| && r[j] in Within(g, start, h) ensures r[i] in Within(g, start, h) {
      EarlierIsNearer(g, start, order, head, i + 1, j + 1, h);
    }
    forall n, i, h: nat | n != start && n !in r && 0 <= i < |r| && n in Within(g, start, h)
      ensures r[i] in Within(g, start, h)
    {
      OmittedIsFarther(g, start, order, head, i, r, n, h);
    }
  }

  lemma ListedAreFound(g: Graph, start: int, order: seq<Entry>, head: nat, r: seq<int>, hops: nat)
    requires Shape(g, start, order, head) && Lists(order, r) && WithinHops(order, hops)
    ensures Distinct(r) && forall n :: n in r ==> n in Found(g, start, hops)
  {
    forall n | n in r ensures n in Found(g, start, hops) {
      var i :| 0 <= i < |r| && r[i] == n;
      QueuedIsFound(g, start, order, head, hops, i + 1);
    }
  }

  lemma Finished(g: Graph, start: int, order: seq<Entry>, head: nat, visited: set<int>, hops: nat, most: nat)
    requires Searching(g, start, order, head, visited) && WithinHops(order, hops)
    requires head == |order| || order[head].depth >= hops || |order| - 1 >= most
    ensures NearestFirst(g, start, hops, most, Take(Nodes(order[1..]), most))
  {
    var r := Take(Nodes(order[1..]), most);
    assert Lists(order, r);
    ListedAreFound(g, start, order, head, r, hops);
    ResultCount(g, start, order, head, hops, most, r);
    InOrderOfDistance(g, start, order, head, r);
  }
}
