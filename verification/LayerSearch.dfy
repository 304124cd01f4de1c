/** Best-first search of one graph layer.

    `d[p]` is the distance from the query to the vector at position p; a removed
    vector has been overwritten by NaN, and so has its distance. `adj[p]` lists the
    neighbours of p in the layer.
 */
module LayerSearch {
  import opened Sequences

  datatype Float = Num(value: real) | NaN

  /** The `<` of the machine: false as soon as NaN is involved. */
  predicate RawLess(a: Float, b: Float) {
    a.Num? && b.Num? && a.value < b.value
  }

  /** The total order of `OrderedFloat`, with NaN on top. */
  predicate TotalLeq(a: Float, b: Float) {
    b.NaN? || (a.Num? && a.value <= b.value)
  }

  /** Heap order on (distance, position) pairs. */
  predicate Closer(d: seq<Float>, p: nat, q: nat)
    requires p < |d| && q < |d|
  {
    TotalLeq(d[p], d[q]) && (TotalLeq(d[q], d[p]) ==> p < q)
  }

  predicate Live(d: seq<Float>, p: nat) {
    p < |d| && d[p].Num?
  }

  function Neighbours(adj: seq<seq<nat>>, p: nat): seq<nat> {
    if p < |adj| then adj[p] else []
  }

  // ---- The heaps ----

  /** A heap, as the ascending sequence of the positions in it. */
  ghost predicate IsHeap(d: seq<Float>, h: seq<nat>) {
    && (forall i :: 0 <= i < |h| ==> h[i] < |d|)
    && (forall i, j :: 0 <= i < j < |h| ==> Closer(d, h[i], h[j]))
  }

  function Push(d: seq<Float>, h: seq<nat>, p: nat): seq<nat>
    requires p < |d| && forall i :: 0 <= i < |h| ==> h[i] < |d|
  {
    if h == [] then [p]
    else if Closer(d, h[0], p) then [h[0]] + Push(d, h[1..], p)
    else [p] + h
  }

  lemma {:induction false} PushMembers(d: seq<Float>, h: seq<nat>, p: nat)
    requires p < |d| && forall i :: 0 <= i < |h| ==> h[i] < |d|
    ensures |Push(d, h, p)| == |h| + 1
    ensures forall q :: q in Push(d, h, p) <==> q in h || q == p
  {
    if h == [] || !Closer(d, h[0], p) {
    } else {
      PushMembers(d, h[1..], p);
      assert h == [h[0]] + h[1..];
    }
  }

  lemma CloserChains(d: seq<Float>, p: nat, q: nat, r: nat)
    requires p < |d| && q < |d| && r < |d| && Closer(d, p, q) && Closer(d, q, r)
    ensures Closer(d, p, r)
  {
  }

  lemma CloserEither(d: seq<Float>, p: nat, q: nat)
    requires p < |d| && q < |d| && p != q
    ensures Closer(d, p, q) || Closer(d, q, p)
  {
  }

  /** An element closer than all of a heap can go in front. */
  lemma HeapCons(d: seq<Float>, x: nat, rest: seq<nat>)
    requires x < |d| && IsHeap(d, rest) && forall i :: 0 <= i < |rest| ==> Closer(d, x, rest[i])
    ensures IsHeap(d, [x] + rest)
  {
    var h := [x] + rest;
    forall i, j | 0 <= i < j < |h| ensures Closer(d, h[i], h[j]) {
      if i == 0 {
        assert h[j] == rest[j - 1];
      } else {
        assert h[i] == rest[i - 1] && h[j] == rest[j - 1];
      }
    }
  }

  lemma HeapTail(d: seq<Float>, h: seq<nat>)
    requires IsHeap(d, h) && h != []
    ensures IsHeap(d, h[1..])
  {
    var rest := h[1..];
    forall i, j | 0 <= i < j < |rest| ensures Closer(d, rest[i], rest[j]) {
      assert rest[i] == h[i + 1] && rest[j] == h[j + 1];
    }
  }

  lemma {:induction false} PushIsHeap(d: seq<Float>, h: seq<nat>, p: nat)
    requires IsHeap(d, h) && p < |d| && p !in h
    ensures IsHeap(d, Push(d, h, p))
  {
    if h == [] {
    } else if Closer(d, h[0], p) {
      var rest := Push(d, h[1..], p);
      HeapTail(d, h);
      PushIsHeap(d, h[1..], p);
      PushMembers(d, h[1..], p);
      forall i | 0 <= i < |rest| ensures Closer(d, h[0], rest[i]) {
        assert rest[i] in rest;
        if rest[i] != p {
          var k :| 0 <= k < |h[1..]| && h[1..][k] == rest[i];
          assert Closer(d, h[0], h[k + 1]);
        }
      }
      HeapCons(d, h[0], rest);
    } else {
      CloserEither(d, h[0], p);
      forall i | 0 <= i < |h| ensures Closer(d, p, h[i]) {
        if i > 0 {
          CloserChains(d, p, h[0], h[i]);
        }
      }
      HeapCons(d, p, h);
    }
  }

  lemma PushKeepsHeap(d: seq<Float>, h: seq<nat>, p: nat)
    requires IsHeap(d, h) && p < |d| && p !in h
    ensures IsHeap(d, Push(d, h, p))
    ensures |Push(d, h, p)| == |h| + 1
    ensures forall q :: q in Push(d, h, p) <==> q in h || q == p
  {
    PushIsHeap(d, h, p);
    PushMembers(d, h, p);
  }

  // ---- Reachability, and what the search promises ----

  /** A walk from `entry` along edges; every position after it is live. */
  ghost predicate Walk(d: seq<Float>, adj: seq<seq<nat>>, entry: nat, w: seq<nat>) {
    && w != [] && w[0] == entry
    && forall i :: 0 < i < |w| ==> Live(d, w[i]) && w[i] in Neighbours(adj, w[i - 1])
  }

  ghost predicate Reachable(d: seq<Float>, adj: seq<seq<nat>>, entry: nat, p: nat) {
    exists w :: Walk(d, adj, entry, w) && w[|w| - 1] == p
  }

  /** The positions whose distance the search has looked at. */
  ghost function Evaluated(d: seq<Float>, entry: nat, visited: set<nat>): set<nat> {
    set p | p in visited && (p == entry || Live(d, p))
  }

  function Width(ef: nat): nat { if ef == 0 then 1 else ef }

  /** Nothing evaluated was left out but for a full result, and then nothing closer. */
  ghost predicate ClosestOf(d: seq<Float>, res: seq<nat>, ef: nat, evaluated: set<nat>) {
    forall e, r :: e in evaluated && e !in res && r in res ==>
      |res| == Width(ef) && e < |d| && r < |d| && TotalLeq(d[r], d[e])
  }

  /** Every live neighbour of a returned position has been evaluated. */
  ghost predicate Expanded(d: seq<Float>, adj: seq<seq<nat>>, p: nat, evaluated: set<nat>) {
    forall n :: n in Neighbours(adj, p) && Live(d, n) ==> n in evaluated
  }

  ghost predicate SortedByDistance(d: seq<Float>, res: seq<nat>) {
    && (forall i :: 0 <= i < |res| ==> res[i] < |d|)
    && (forall i, j :: 0 <= i < j < |res| ==> TotalLeq(d[res[i]], d[res[j]]))
  }

  /** The positions any edge of the layer leads to, and the entry. */
  ghost function Universe(adj: seq<seq<nat>>, entry: nat): set<nat> {
    (set i, j | 0 <= i < |adj| && 0 <= j < |adj[i]| :: adj[i][j]) + {entry}
  }

  // ---- The search ----

  /** The loop invariant. */
  ghost predicate Searching(d: seq<Float>, adj: seq<seq<nat>>, entry: nat, ef: nat,
                            candidates: seq<nat>, results: seq<nat>, visited: set<nat>) {
    && IsHeap(d, candidates)
    && entry < |d| && entry in visited && visited <= Universe(adj, entry)
    && (forall c :: c in candidates ==> c in Evaluated(d, entry, visited))
    && results != [] && Holds(d, results, ef, Evaluated(d, entry, visited))
    && (d[entry].NaN? ==> entry in results)
    && (forall v {:trigger Reachable(d, adj, entry, v)} ::
          v in Evaluated(d, entry, visited) ==> Reachable(d, adj, entry, v))
  }

  /** All neighbours of the position have been looked at. */
  ghost predicate Done(adj: seq<seq<nat>>, p: nat, visited: set<nat>) {
    forall n :: n in Neighbours(adj, p) ==> n in visited
  }

  /** Returned positions are still waiting, being expanded as `current`, or done. */
  ghost predicate Progress(adj: seq<seq<nat>>, candidates: seq<nat>, results: seq<nat>,
                           visited: set<nat>, current: set<nat>) {
    forall r :: r in results && r !in candidates && r !in current ==> Done(adj, r, visited)
  }

  lemma EntryIsReachable(d: seq<Float>, adj: seq<seq<nat>>, entry: nat)
    ensures Reachable(d, adj, entry, entry)
  {
    assert Walk(d, adj, entry, [entry]);
  }

  lemma StepIsReachable(d: seq<Float>, adj: seq<seq<nat>>, entry: nat, p: nat, n: nat)
    requires Reachable(d, adj, entry, p) && n in Neighbours(adj, p) && Live(d, n)
    ensures Reachable(d, adj, entry, n)
  {
    var w :| Walk(d, adj, entry, w) && w[|w| - 1] == p;
    assert Walk(d, adj, entry, w + [n]);
    assert (w + [n])[|w + [n]| - 1] == n;
  }

  lemma NeighboursInUniverse(adj: seq<seq<nat>>, entry: nat, p: nat)
    ensures forall n :: n in Neighbours(adj, p) ==> n in Universe(adj, entry)
  {
    forall n | n in Neighbours(adj, p) ensures n in Universe(adj, entry) {
      var j :| 0 <= j < |adj[p]| && adj[p][j] == n;
    }
  }

  // ---- What one evaluated neighbour does to the results ----

  /** The result heap: nothing evaluated was left out but for a full heap, and then
      nothing closer than its farthest entry. */
  ghost predicate Holds(d: seq<Float>, res: seq<nat>, ef: nat, evaluated: set<nat>) {
    && IsHeap(d, res)
    && |res| <= Width(ef)
    && (forall r :: r in res ==> r in evaluated)
    && (forall e :: e in evaluated && e !in res ==>
          |res| == Width(ef) && e < |d| && !RawLess(d[e], d[res[|res| - 1]]))
  }

  lemma ResultsGrow(d: seq<Float>, res: seq<nat>, ef: nat, evaluated: set<nat>, n: nat)
    requires Holds(d, res, ef, evaluated) && |res| < ef
    requires n !in evaluated && Live(d, n)
    ensures Holds(d, Push(d, res, n), ef, evaluated + {n}) && |Push(d, res, n)| == |res| + 1
    ensures forall q :: q in Push(d, res, n) <==> q in res || q == n
  {
    PushKeepsHeap(d, res, n);
  }

  lemma ResultsReject(d: seq<Float>, res: seq<nat>, ef: nat, evaluated: set<nat>, n: nat)
    requires Holds(d, res, ef, evaluated) && |res| >= ef && res != []
    requires n !in evaluated && Live(d, n)
    requires !RawLess(d[n], d[res[|res| - 1]])
    ensures Holds(d, res, ef, evaluated + {n})
  {
  }

  lemma HeapInit(d: seq<Float>, h: seq<nat>, n: nat)
    requires IsHeap(d, h) && n <= |h|
    ensures IsHeap(d, h[..n])
  {
  }

  lemma PushThenPop(d: seq<Float>, res: seq<nat>, n: nat)
    requires IsHeap(d, res) && res != [] && Live(d, n) && n !in res && RawLess(d[n], d[res[|res| - 1]])
    ensures |Push(d, res, n)| == |res| + 1
    ensures var kept, far := Push(d, res, n)[..|res|], res[|res| - 1];
      && IsHeap(d, kept)
      && (forall q :: q in kept ==> q in res || q == n)
      && (forall q :: (q in res && q != far) || q == n ==> q in kept)
      && !RawLess(d[far], d[kept[|res| - 1]])
  {
    var pushed, far := Push(d, res, n), res[|res| - 1];
    PushKeepsHeap(d, res, n);
    FarthestIsLast(d, res, n);
    HeapInit(d, pushed, |res|);
    assert Closer(d, pushed[|res| - 1], pushed[|res|]);
    InitMembers(pushed, |res|);
  }

  lemma InitMembers(s: seq<nat>, n: nat)
    requires |s| == n + 1
    ensures forall q :: q in s <==> q in s[..n] || q == s[n]
  {
    assert s == s[..n] + [s[n]];
  }

  /** Push, then pop the farthest: the newcomer stays, the old farthest goes. */
  lemma ResultsEvict(d: seq<Float>, res: seq<nat>, ef: nat, evaluated: set<nat>, n: nat)
    requires Holds(d, res, ef, evaluated) && |res| >= ef && res != []
    requires n !in evaluated && Live(d, n) && RawLess(d[n], d[res[|res| - 1]])
    ensures |Push(d, res, n)| == |res| + 1
    ensures Holds(d, Push(d, res, n)[..|res|], ef, evaluated + {n})
    ensures forall q :: q in Push(d, res, n)[..|res|] ==> q in res || q == n
    ensures forall q :: q in res && q != res[|res| - 1] ==> q in Push(d, res, n)[..|res|]
  {
    PushThenPop(d, res, n);
    var kept, far := Push(d, res, n)[..|res|], res[|res| - 1];
    forall e | e in evaluated + {n} && e !in kept
      ensures |kept| == Width(ef) && e < |d| && !RawLess(d[e], d[kept[|kept| - 1]])
    {
      assert e != n && (e in res ==> e == far);
    }
  }

  /** The last of a heap is the farthest. */
  lemma LastIsFarthest(d: seq<Float>, h: seq<nat>, p: nat)
    requires IsHeap(d, h) && p in h
    ensures p == h[|h| - 1] || Closer(d, p, h[|h| - 1])
  {
    var k :| 0 <= k < |h| && h[k] == p;
  }

  lemma NotBothCloser(d: seq<Float>, p: nat, q: nat)
    requires p < |d| && q < |d|
    ensures !(Closer(d, p, q) && Closer(d, q, p))
    ensures RawLess(d[p], d[q]) ==> !Closer(d, q, p)
  {
  }

  lemma FarthestIsLast(d: seq<Float>, res: seq<nat>, n: nat)
    requires IsHeap(d, res) && res != [] && Live(d, n) && n !in res && RawLess(d[n], d[res[|res| - 1]])
    ensures Push(d, res, n) != [] && Push(d, res, n)[|Push(d, res, n)| - 1] == res[|res| - 1]
  {
    PushMembers(d, res, n);
    PushIsHeap(d, res, n);
    var pushed, far := Push(d, res, n), res[|res| - 1];
    var last := pushed[|pushed| - 1];
    assert far in pushed && last in pushed;
    LastIsFarthest(d, pushed, far);
    assert last == n || last in res;
    if last in res {
      LastIsFarthest(d, res, last);
    }
    NotBothCloser(d, last, far);
  }

  /** A neighbour `n` of the expanded position `c` that was not looked at before. */
  ghost predicate Fresh(d: seq<Float>, adj: seq<seq<nat>>, entry: nat, c: nat, n: nat, visited: set<nat>) {
    c in Evaluated(d, entry, visited) && n in Neighbours(adj, c) && n !in visited
  }

  /** A live newcomer is evaluated, and reachable through `c`. */
  lemma NewEvaluated(d: seq<Float>, adj: seq<seq<nat>>, entry: nat, c: nat, n: nat, visited: set<nat>)
    requires Fresh(d, adj, entry, c, n, visited) && visited <= Universe(adj, entry)
    requires forall v :: v in Evaluated(d, entry, visited) ==> Reachable(d, adj, entry, v)
    ensures visited + {n} <= Universe(adj, entry)
    ensures var before, after := Evaluated(d, entry, visited), Evaluated(d, entry, visited + {n});
      entry in visited ==> after == if Live(d, n) then before + {n} else before
    ensures Live(d, n) ==> Reachable(d, adj, entry, n)
  {
    NeighboursInUniverse(adj, entry, c);
    if Live(d, n) {
      StepIsReachable(d, adj, entry, c, n);
    }
  }

  lemma PassesOver(d: seq<Float>, adj: seq<seq<nat>>, entry: nat, ef: nat, c: nat, n: nat,
                   candidates: seq<nat>, results: seq<nat>, visited: set<nat>)
    requires Searching(d, adj, entry, ef, candidates, results, visited) && Fresh(d, adj, entry, c, n, visited)
    requires Live(d, n) ==> |results| >= ef && !RawLess(d[n], d[results[|results| - 1]])
    ensures Searching(d, adj, entry, ef, candidates, results, visited + {n})
  {
    NewEvaluated(d, adj, entry, c, n, visited);
    if Live(d, n) {
      ResultsReject(d, results, ef, Evaluated(d, entry, visited), n);
    }
  }

  lemma TakesIn(d: seq<Float>, adj: seq<seq<nat>>, entry: nat, ef: nat, c: nat, n: nat,
                candidates: seq<nat>, results: seq<nat>, visited: set<nat>)
    requires Searching(d, adj, entry, ef, candidates, results, visited) && Fresh(d, adj, entry, c, n, visited)
    requires Live(d, n) && |results| < ef
    ensures Searching(d, adj, entry, ef, Push(d, candidates, n), Push(d, results, n), visited + {n})
  {
    NewEvaluated(d, adj, entry, c, n, visited);
    PushKeepsHeap(d, candidates, n);
    ResultsGrow(d, results, ef, Evaluated(d, entry, visited), n);
  }

  lemma Swaps(d: seq<Float>, adj: seq<seq<nat>>, entry: nat, ef: nat, c: nat, n: nat,
              candidates: seq<nat>, results: seq<nat>, visited: set<nat>)
    requires Searching(d, adj, entry, ef, candidates, results, visited) && Fresh(d, adj, entry, c, n, visited)
    requires Live(d, n) && |results| >= ef && RawLess(d[n], d[results[|results| - 1]])
    ensures |Push(d, results, n)| == |results| + 1
    ensures Searching(d, adj, entry, ef, Push(d, candidates, n), Push(d, results, n)[..|results|], visited + {n})
  {
    NewEvaluated(d, adj, entry, c, n, visited);
    PushKeepsHeap(d, candidates, n);
    ResultsEvict(d, results, ef, Evaluated(d, entry, visited), n);
  }

  /** What is returned and not expanded still waits: the newcomer waits too. */
  lemma ProgressKept(adj: seq<seq<nat>>, candidates: seq<nat>, results: seq<nat>, visited: set<nat>,
                     candidates': seq<nat>, results': seq<nat>, n: nat, current: set<nat>)
    requires Progress(adj, candidates, results, visited, current)
    requires forall q :: q in candidates ==> q in candidates'
    requires forall q :: q in results' ==> q in results || (q == n && n in candidates')
    ensures Progress(adj, candidates', results', visited + {n}, current)
  {
  }

  /** Looks at one neighbour of `c`: skip it, or push it and evict the farthest. */
  method Consider(d: seq<Float>, ghost adj: seq<seq<nat>>, ghost entry: nat, ef: nat, ghost c: nat, n: nat,
                  candidates: seq<nat>, results: seq<nat>, visited: set<nat>)
    returns (candidates': seq<nat>, results': seq<nat>, visited': set<nat>)
    requires Searching(d, adj, entry, ef, candidates, results, visited)
    requires Progress(adj, candidates, results, visited, {c})
    requires c in Evaluated(d, entry, visited) && n in Neighbours(adj, c)
    ensures Searching(d, adj, entry, ef, candidates', results', visited')
    ensures Progress(adj, candidates', results', visited', {c})
    ensures visited' == visited + {n} && c in Evaluated(d, entry, visited')
    ensures n in visited ==> candidates' == candidates
  {
    candidates', results', visited' := candidates, results, visited + {n};
    if n in visited {
      assert visited + {n} == visited;
      return;
    }
    if n >= |d| || d[n].NaN? {
      PassesOver(d, adj, entry, ef, c, n, candidates, results, visited);
    } else if |results| < ef {
      TakesIn(d, adj, entry, ef, c, n, candidates, results, visited);
      candidates' := Push(d, candidates, n);
      results' := Push(d, results, n);
      PushMembers(d, candidates, n);
      PushMembers(d, results, n);
    } else if RawLess(d[n], d[results[|results| - 1]]) {
      Swaps(d, adj, entry, ef, c, n, candidates, results, visited);
      candidates' := Push(d, candidates, n);
      results' := Push(d, results, n);
      PushMembers(d, candidates, n);
      PushMembers(d, results, n);
      results' := results'[..|results'| - 1];
    } else {
      PassesOver(d, adj, entry, ef, c, n, candidates, results, visited);
    }
    ProgressKept(adj, candidates, results, visited, candidates', results', n, {c});
  }

  /** What one layer search guarantees for an entry inside the buffer. */
  ghost predicate LayerResult(d: seq<Float>, adj: seq<seq<nat>>, entry: nat, ef: nat,
                              res: seq<nat>, evaluated: set<nat>) {
    && SortedByDistance(d, res)
    && (forall i, j :: 0 <= i < j < |res| ==> res[i] != res[j])
    && 0 < |res| <= Width(ef)
    && entry in evaluated
    && (forall r :: r in res ==> r in evaluated && Expanded(d, adj, r, evaluated))
    && (forall e :: e in evaluated ==> e == entry || Live(d, e))
    && (forall e {:trigger Reachable(d, adj, entry, e)} :: e in evaluated ==> Reachable(d, adj, entry, e))
    && (forall e :: e in evaluated && e !in res ==> |res| == Width(ef))
    && (Live(d, entry) ==> ClosestOf(d, res, ef, evaluated))
    && (!Live(d, entry) ==> entry in res)
  }

  /** The first `j` entries of a list have been looked at. */
  ghost predicate Seen(list: seq<nat>, j: nat, visited: set<nat>) {
    forall k :: 0 <= k < j && k < |list| ==> list[k] in visited
  }

  lemma ExpandedIsDone(adj: seq<seq<nat>>, candidates: seq<nat>, results: seq<nat>, visited: set<nat>, c: nat)
    requires Progress(adj, candidates, results, visited, {c})
    requires Seen(Neighbours(adj, c), |Neighbours(adj, c)|, visited)
    ensures Progress(adj, candidates, results, visited, {})
  {
    forall n | n in Neighbours(adj, c) ensures n in visited {
      var k :| 0 <= k < |Neighbours(adj, c)| && Neighbours(adj, c)[k] == n;
    }
  }

  /** Expands one popped candidate: looks at its neighbours in list order. */
  method Expand(d: seq<Float>, adj: seq<seq<nat>>, ghost entry: nat, ef: nat, c: nat,
                waiting: seq<nat>, held: seq<nat>, seen: set<nat>)
    returns (candidates: seq<nat>, results: seq<nat>, visited: set<nat>)
    requires Searching(d, adj, entry, ef, waiting, held, seen)
    requires Progress(adj, waiting, held, seen, {c}) && c in Evaluated(d, entry, seen)
    ensures Searching(d, adj, entry, ef, candidates, results, visited)
    ensures Progress(adj, candidates, results, visited, {})
    ensures seen <= visited && (visited == seen ==> candidates == waiting)
  {
    candidates, results, visited := waiting, held, seen;
    var list := Neighbours(adj, c);
    for j := 0 to |list|
      invariant Searching(d, adj, entry, ef, candidates, results, visited)
      invariant Progress(adj, candidates, results, visited, {c})
      invariant c in Evaluated(d, entry, visited)
      invariant seen <= visited && Seen(list, j, visited)
      invariant visited == seen ==> candidates == waiting
    {
      candidates, results, visited := Consider(d, adj, entry, ef, c, list[j], candidates, results, visited);
    }
    ExpandedIsDone(adj, candidates, results, visited, c);
  }

  /** A candidate farther than everything in a full result: no returned position is waiting. */
  lemma StopIsDone(d: seq<Float>, adj: seq<seq<nat>>, entry: nat, ef: nat,
                   candidates: seq<nat>, results: seq<nat>, visited: set<nat>)
    requires Searching(d, adj, entry, ef, candidates, results, visited)
    requires Progress(adj, candidates, results, visited, {})
    requires candidates == [] || RawLess(d[results[|results| - 1]], d[candidates[0]])
    ensures Progress(adj, [], results, visited, {})
  {
    if candidates != [] {
      HeapEnds(d, candidates);
      HeapEnds(d, results);
    }
  }

  /** The queue loop: stops with no candidate, or with a full result closer than all of them. */
  method Drain(d: seq<Float>, entry: nat, ef: nat, adj: seq<seq<nat>>)
    returns (results: seq<nat>, ghost waiting: seq<nat>, ghost visited: set<nat>)
    requires entry < |d|
    ensures Searching(d, adj, entry, ef, waiting, results, visited)
    ensures Progress(adj, waiting, results, visited, {})
    ensures waiting == [] || (RawLess(d[results[|results| - 1]], d[waiting[0]]) && |results| >= ef)
  {
    var candidates, seen := [entry], {entry};
    results := [entry];
    EntryIsReachable(d, adj, entry);
    assert Evaluated(d, entry, seen) == {entry};
    while candidates != []
      invariant Searching(d, adj, entry, ef, candidates, results, seen)
      invariant Progress(adj, candidates, results, seen, {})
      decreases Universe(adj, entry) - seen, |candidates|
    {
      var c := candidates[0];
      if RawLess(d[results[|results| - 1]], d[c]) && |results| >= ef {
        break;
      }
      PopKeepsSearching(d, adj, entry, ef, candidates, results, seen);
      candidates, results, seen := Expand(d, adj, entry, ef, c, candidates[1..], results, seen);
    }
    waiting, visited := candidates, seen;
  }

  method SearchLayer(d: seq<Float>, entry: nat, ef: nat, adj: seq<seq<nat>>)
    returns (res: seq<nat>, ghost evaluated: set<nat>)
    ensures entry >= |d| ==> res == []
    ensures entry < |d| ==> LayerResult(d, adj, entry, ef, res, evaluated)
  {
    if entry >= |d| {
      return [], {};
    }
    var results: seq<nat>;
    ghost var waiting, visited;
    results, waiting, visited := Drain(d, entry, ef, adj);
    StopIsDone(d, adj, entry, ef, waiting, results, visited);
    HeapIsAnswer(d, adj, entry, ef, waiting, results, visited);
    res, evaluated := results, Evaluated(d, entry, visited);
  }

  lemma PopKeepsSearching(d: seq<Float>, adj: seq<seq<nat>>, entry: nat, ef: nat,
                          candidates: seq<nat>, results: seq<nat>, visited: set<nat>)
    requires Searching(d, adj, entry, ef, candidates, results, visited) && candidates != []
    requires Progress(adj, candidates, results, visited, {})
    ensures Searching(d, adj, entry, ef, candidates[1..], results, visited)
    ensures Progress(adj, candidates[1..], results, visited, {candidates[0]})
    ensures candidates[0] in Evaluated(d, entry, visited)
  {
    assert candidates == [candidates[0]] + candidates[1..];
    assert forall q :: q in candidates <==> q == candidates[0] || q in candidates[1..];
  }

  /** The first entry of a heap is its closest, the last its farthest. */
  lemma HeapEnds(d: seq<Float>, h: seq<nat>)
    requires IsHeap(d, h) && h != []
    ensures forall q :: q in h ==> q < |d| && TotalLeq(d[h[0]], d[q]) && TotalLeq(d[q], d[h[|h| - 1]])
  {
    forall q | q in h ensures q < |d| && TotalLeq(d[h[0]], d[q]) && TotalLeq(d[q], d[h[|h| - 1]]) {
      var i :| 0 <= i < |h| && h[i] == q;
      assert i > 0 ==> Closer(d, h[0], h[i]);
      assert i < |h| - 1 ==> Closer(d, h[i], h[|h| - 1]);
    }
  }

  lemma HeapIsAnswer(d: seq<Float>, adj: seq<seq<nat>>, entry: nat, ef: nat,
                     candidates: seq<nat>, results: seq<nat>, visited: set<nat>)
    requires Searching(d, adj, entry, ef, candidates, results, visited)
    requires Progress(adj, [], results, visited, {})
    ensures LayerResult(d, adj, entry, ef, results, Evaluated(d, entry, visited))
  {
    HeapEnds(d, results);
    forall i, j | 0 <= i < j < |results| ensures TotalLeq(d[results[i]], d[results[j]]) && results[i] != results[j] {
      assert Closer(d, results[i], results[j]);
    }
  }

  // ---- What a caller can conclude ----

  /** From a live entry: a local optimum. Every live neighbour of a returned position is
      returned, or the result is full and the neighbour is no closer than anything in it. */
  lemma LocalOptimum(d: seq<Float>, adj: seq<seq<nat>>, entry: nat, ef: nat,
                     res: seq<nat>, evaluated: set<nat>, r: nat, n: nat)
    requires Live(d, entry) && LayerResult(d, adj, entry, ef, res, evaluated)
    requires r in res && n in Neighbours(adj, r) && Live(d, n)
    ensures n in res || (|res| == Width(ef) && forall q :: q in res ==> Live(d, q) && d[q].value <= d[n].value)
  {
    assert Expanded(d, adj, r, evaluated);
    if n !in res {
      assert |res| == Width(ef) && TotalLeq(d[r], d[n]);
    }
  }

  /** A removed position is returned exactly when the search was started at one. */
  lemma RemovedIffEntryRemoved(d: seq<Float>, adj: seq<seq<nat>>, entry: nat, ef: nat,
                               res: seq<nat>, evaluated: set<nat>)
    requires entry < |d| && LayerResult(d, adj, entry, ef, res, evaluated)
    ensures (exists r :: r in res && !Live(d, r)) <==> !Live(d, entry)
  {
  }

  lemma {:induction false} WalkStaysInside(d: seq<Float>, adj: seq<seq<nat>>, entry: nat,
                                           inside: set<nat>, w: seq<nat>)
    requires Walk(d, adj, entry, w) && entry in inside
    requires forall p, n :: p in inside && n in Neighbours(adj, p) && Live(d, n) ==> n in inside
    ensures w[|w| - 1] in inside
    decreases |w|
  {
    if |w| <= 1 {
    } else {
      WalkStaysInside(d, adj, entry, inside, w[..|w| - 1]);
    }
  }

  /** The positions a search from `entry` could find. */
  ghost function Reach(d: seq<Float>, adj: seq<seq<nat>>, entry: nat): set<nat> {
    set p | p in Universe(adj, entry) && Reachable(d, adj, entry, p)
  }

  lemma ReachIsReachable(d: seq<Float>, adj: seq<seq<nat>>, entry: nat, p: nat)
    ensures p in Reach(d, adj, entry) <==> Reachable(d, adj, entry, p)
  {
    if Reachable(d, adj, entry, p) {
      var w :| Walk(d, adj, entry, w) && w[|w| - 1] == p;
      if |w| > 1 {
        NeighboursInUniverse(adj, entry, w[|w| - 2]);
      }
    }
  }

  /** A search that is not full has found everything it could. */
  lemma NotFullIsEverything(d: seq<Float>, adj: seq<seq<nat>>, entry: nat, ef: nat,
                            res: seq<nat>, evaluated: set<nat>)
    requires LayerResult(d, adj, entry, ef, res, evaluated) && |res| < Width(ef)
    ensures AsSet(res) == Reach(d, adj, entry)
  {
    NothingLeftOut(d, adj, entry, ef, res, evaluated);
    forall p ensures p in AsSet(res) <==> p in Reach(d, adj, entry) {
      ReachIsReachable(d, adj, entry, p);
      if Reachable(d, adj, entry, p) {
        var w :| Walk(d, adj, entry, w) && w[|w| - 1] == p;
        WalkStaysInside(d, adj, entry, AsSet(res), w);
      }
    }
  }

  lemma FoundIsInReach(d: seq<Float>, adj: seq<seq<nat>>, entry: nat, ef: nat,
                       res: seq<nat>, evaluated: set<nat>)
    requires LayerResult(d, adj, entry, ef, res, evaluated)
    ensures AsSet(res) <= Reach(d, adj, entry)
  {
    forall p | p in res ensures p in Reach(d, adj, entry) {
      ReachIsReachable(d, adj, entry, p);
    }
  }

  /** How many positions a search finds, from any entry, removed or not: all it could, or `ef`. */
  lemma FoundSize(d: seq<Float>, adj: seq<seq<nat>>, entry: nat, ef: nat, res: seq<nat>, evaluated: set<nat>)
    requires LayerResult(d, adj, entry, ef, res, evaluated)
    ensures var reach := |Reach(d, adj, entry)|;
      |res| == if reach <= Width(ef) then reach else Width(ef)
  {
    DistinctSize(res);
    FoundIsInReach(d, adj, entry, ef, res, evaluated);
    SubsetSize(AsSet(res), Reach(d, adj, entry));
    if |res| < Width(ef) {
      NotFullIsEverything(d, adj, entry, ef, res, evaluated);
    }
  }

  /** A wide enough search is exhaustive: when `ef` covers the positions reachable from its entry,
      exactly those are returned, each once, sorted by distance. */
  lemma WideSearchIsExhaustive(d: seq<Float>, adj: seq<seq<nat>>, entry: nat, ef: nat,
                               res: seq<nat>, evaluated: set<nat>)
    requires LayerResult(d, adj, entry, ef, res, evaluated) && |Reach(d, adj, entry)| <= Width(ef)
    ensures AsSet(res) == Reach(d, adj, entry) && |res| == |Reach(d, adj, entry)|
  {
    FoundSize(d, adj, entry, ef, res, evaluated);
    DistinctSize(res);
    FoundIsInReach(d, adj, entry, ef, res, evaluated);
    SubsetSize(AsSet(res), Reach(d, adj, entry));
  }

  lemma NothingLeftOut(d: seq<Float>, adj: seq<seq<nat>>, entry: nat, ef: nat, res: seq<nat>, evaluated: set<nat>)
    requires LayerResult(d, adj, entry, ef, res, evaluated) && |res| < Width(ef)
    ensures entry in res
    ensures forall p, n :: p in res && n in Neighbours(adj, p) && Live(d, n) ==> n in res
  {
    forall e | e in evaluated ensures e in res { }
    forall p, n | p in res && n in Neighbours(adj, p) && Live(d, n) ensures n in res {
      assert Expanded(d, adj, p, evaluated);
    }
  }
}
