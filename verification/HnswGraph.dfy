/** The layered graph: greedy descent, insertion, and what insertion keeps. */
module HnswGraph {
  import opened LayerSearch
  import opened Sequences
  import opened StableSort
  import opened Wrappers

  type Layer = seq<seq<nat>>

  /** The distance given to positions outside the vector buffer. */
  const F32_MAX: real := 340282346638528859811704183484516925440.0

  /** One neighbour list of layer `l`: short, without repeats, and between positions
      that were inserted with a level of at least `l`. */
  ghost predicate ListInv(list: seq<nat>, p: nat, l: nat, levels: map<nat, nat>, maxConn: nat) {
    && |list| <= 2 * maxConn
    && Distinct(list)
    && (forall n :: n in list ==> n != p && n in levels && levels[n] >= l)
    && (list != [] ==> p in levels && levels[p] >= l)
  }

  ghost predicate LayerInv(adj: Layer, l: nat, levels: map<nat, nat>, maxConn: nat) {
    forall p {:trigger ListInv(adj[p], p, l, levels, maxConn)} ::
      0 <= p < |adj| ==> ListInv(adj[p], p, l, levels, maxConn)
  }

  /** Everything a walk of the layer can visit has level `l`. */
  lemma {:induction false} WalkLevels(
    d: seq<Float>, adj: Layer, entry: nat, l: nat, levels: map<nat, nat>, maxConn: nat, w: seq<nat>)
    requires LayerInv(adj, l, levels, maxConn) && entry in levels && levels[entry] >= l
    requires Walk(d, adj, entry, w)
    ensures w[|w| - 1] in levels && levels[w[|w| - 1]] >= l
  {
    if |w| <= 1 {
    } else {
      WalkLevels(d, adj, entry, l, levels, maxConn, w[..|w| - 1]);
      assert w[|w| - 1] in Neighbours(adj, w[|w| - 2]);
      assert ListInv(adj[w[|w| - 2]], w[|w| - 2], l, levels, maxConn);
    }
  }

  /** Empty slots at the end of a layer make no difference. */
  ghost predicate SameLists(adj: Layer, adj': Layer) {
    forall p: nat :: Neighbours(adj, p) == Neighbours(adj', p)
  }

  // ---- The graph over all layers ----

  ghost predicate GraphInv(layers: seq<Layer>, entryPoint: Option<nat>, maxLevel: nat,
                           levels: map<nat, nat>, size: nat, maxConn: nat) {
    && (forall l :: 0 <= l < |layers| ==> LayerInv(layers[l], l, levels, maxConn))
    && (forall p :: p in levels ==> p < size && levels[p] <= maxLevel)
    && (entryPoint.None? ==> levels == map[])
    && (entryPoint.Some? ==>
          && entryPoint.value in levels && levels[entryPoint.value] == maxLevel
          && maxLevel < |layers|)
  }

  // ---- Greedy descent ----

  /** The positions strictly closer than `p`: what a descent step leaves behind. */
  ghost function CloserThan(d: seq<Float>, p: nat): set<nat>
    requires p < |d|
  {
    set q | 0 <= q < |d| && RawLess(d[q], d[p])
  }

  /** One pass over a neighbour list: move whenever a neighbour is closer. */
  method Scan(d: seq<Float>, list: seq<nat>, from: nat) returns (current: nat, changed: bool)
    requires from < |d|
    ensures current < |d| && (changed <==> current != from)
    ensures changed ==> current in list && RawLess(d[current], d[from])
    ensures forall n :: n in list && n < |d| ==> !RawLess(d[n], d[current])
  {
    current, changed := from, false;
    for j := 0 to |list|
      invariant current < |d| && (changed <==> current != from)
      invariant changed ==> current in list && RawLess(d[current], d[from])
      invariant forall k :: 0 <= k < j && list[k] < |d| ==> !RawLess(d[list[k]], d[current])
    {
      if list[j] < |d| && RawLess(d[list[j]], d[current]) {
        current, changed := list[j], true;
      }
    }
  }

  /** No neighbour is closer. */
  ghost predicate LocalMinimum(d: seq<Float>, adj: Layer, p: nat) {
    p < |d| && forall n :: n in Neighbours(adj, p) && n < |d| ==> !RawLess(d[n], d[p])
  }

  /** A step goes to a neighbour, strictly closer, and no other neighbour is closer than that. */
  ghost predicate GreedyStep(d: seq<Float>, adj: Layer, p: nat, q: nat) {
    && p < |d| && q < |d| && q in Neighbours(adj, p) && RawLess(d[q], d[p])
    && forall n :: n in Neighbours(adj, p) && n < |d| ==> !RawLess(d[n], d[q])
  }

  ghost predicate StepAt(d: seq<Float>, adj: Layer, w: seq<nat>, i: nat) {
    i + 1 < |w| ==> GreedyStep(d, adj, w[i], w[i + 1])
  }

  ghost predicate GreedySteps(d: seq<Float>, adj: Layer, w: seq<nat>) {
    w != [] && w[0] < |d| && forall i: nat :: StepAt(d, adj, w, i)
  }

  /** The greedy steps of one layer lead from here to there, and stop. */
  ghost predicate Descends(d: seq<Float>, adj: Layer, from: nat, to: nat) {
    && LocalMinimum(d, adj, to)
    && exists w: seq<nat> :: GreedySteps(d, adj, w) && w[0] == from && w[|w| - 1] == to
  }

  lemma StepsSnoc(d: seq<Float>, adj: Layer, w: seq<nat>, to: nat)
    requires GreedySteps(d, adj, w) && GreedyStep(d, adj, w[|w| - 1], to)
    ensures GreedySteps(d, adj, w + [to])
  {
    var w' := w + [to];
    forall i: nat ensures StepAt(d, adj, w', i) {
      assert StepAt(d, adj, w, i);
      assert i + 1 < |w| ==> w'[i + 1] == w[i + 1] && w'[i] == w[i];
    }
  }

  /** Descends one layer: scan the neighbours of the current position and move, until a
      scan changes nothing. Ends at a local minimum, reached along edges of the layer. */
  method Descend(d: seq<Float>, adj: Layer, start: nat) returns (current: nat)
    requires start < |d|
    ensures current < |d| && Descends(d, adj, start, current)
    ensures current != start ==> RawLess(d[current], d[start]) && exists q :: current in Neighbours(adj, q)
  {
    current := start;
    var changed := true;
    ghost var w: seq<nat> := [start];
    while changed
      invariant current < |d| && GreedySteps(d, adj, w) && w[0] == start && w[|w| - 1] == current
      invariant current != start ==> RawLess(d[current], d[start]) && exists q :: current in Neighbours(adj, q)
      invariant !changed ==> forall n :: n in Neighbours(adj, current) && n < |d| ==> !RawLess(d[n], d[current])
      decreases CloserThan(d, current), changed
    {
      ghost var from := current;
      current, changed := Scan(d, Neighbours(adj, current), current);
      if changed {
        MovingDescends(d, from, current);
        StepsSnoc(d, adj, w, current);
        w := w + [current];
      }
    }
  }

  ghost predicate StopsAt(d: seq<Float>, layers: seq<Layer>, level: nat, stops: seq<nat>, k: nat) {
    k + 1 < |stops| && level + 1 + k < |layers| ==> Descends(d, layers[level + 1 + k], stops[k + 1], stops[k])
  }

  /** Where a descent stops in each layer: `stops[k]` is where it leaves layer `level + 1 + k`. */
  ghost predicate Descent(d: seq<Float>, layers: seq<Layer>, level: nat, stops: seq<nat>) {
    && stops != [] && (|stops| == 1 || level + |stops| - 1 < |layers|)
    && forall k: nat :: StopsAt(d, layers, level, stops, k)
  }

  /** The descent from the entry point: layer by layer, from the top down to just above `level`. */
  ghost predicate DescendsTo(d: seq<Float>, layers: seq<Layer>, from: nat, top: nat, level: nat, to: nat) {
    exists stops: seq<nat> ::
      Descent(d, layers, level, stops) && stops[|stops| - 1] == from && stops[0] == to
      && |stops| == if top <= level then 1 else top - level + 1
  }

  lemma DescentCons(d: seq<Float>, layers: seq<Layer>, level: nat, stops: seq<nat>, next: nat)
    requires Descent(d, layers, level + 1, stops) && level + 1 < |layers|
    requires Descends(d, layers[level + 1], stops[0], next)
    ensures Descent(d, layers, level, [next] + stops) && ([next] + stops)[|stops|] == stops[|stops| - 1]
  {
    var all := [next] + stops;
    forall k: nat ensures StopsAt(d, layers, level, all, k) {
      if 0 < k && k + 1 < |all| {
        assert StopsAt(d, layers, level + 1, stops, k - 1);
        assert all[k] == stops[k - 1] && all[k + 1] == stops[k];
      }
    }
  }

  lemma MovingDescends(d: seq<Float>, from: nat, to: nat)
    requires from < |d| && to < |d| && RawLess(d[to], d[from])
    ensures CloserThan(d, to) < CloserThan(d, from)
  {
    assert to in CloserThan(d, from) && to !in CloserThan(d, to);
  }

  // ---- Distances ----

  type Vector = seq<real>

  /** Distances from a slot of the buffer; a removed slot is NaN, and so are its distances. */
  function Distances(dist: (Vector, Vector) -> real, vecs: seq<Option<Vector>>, from: Option<Vector>): (d: seq<Float>)
    ensures |d| == |vecs|
    ensures forall p :: 0 <= p < |vecs| ==>
      d[p] == if from.Some? && vecs[p].Some? then Num(dist(from.value, vecs[p].value)) else NaN
  {
    seq(|vecs|, p requires 0 <= p < |vecs| =>
      if from.Some? && vecs[p].Some? then Num(dist(from.value, vecs[p].value)) else NaN)
  }

  function DistanceAt(d: seq<Float>, p: nat): Float {
    if p < |d| then d[p] else Num(F32_MAX)
  }

  // ---- Connecting a new position ----

  /** What is kept of an overfull list: as many entries as fit, and of live ones the closest, in order. */
  ghost predicate ClosestKept(d: seq<Float>, list: seq<nat>, maxConn: nat, kept: seq<nat>) {
    && Distinct(kept)
    && |kept| == (if |list| <= 2 * maxConn then |list| else 2 * maxConn)
    && (forall n :: n in kept ==> n in list)
    && ((forall n :: n in list ==> Live(d, n)) ==>
          && InOrder(d, kept)
          && forall n, m :: n in kept && m in list && m !in kept ==> d[n].value <= d[m].value)
  }

  /** Keeps the closest `2 * maxConn` entries of an overfull list. */
  method Prune(d: seq<Float>, list: seq<nat>, maxConn: nat) returns (kept: seq<nat>)
    requires Distinct(list)
    ensures ClosestKept(d, list, maxConn, kept)
  {
    var leq := (a: nat, b: nat) => !RawLess(DistanceAt(d, b), DistanceAt(d, a));
    var sorted := Sort(list, leq);
    SortPermutes(list, leq);
    PermutedDistinct(list, sorted);
    kept := Take(sorted, 2 * maxConn);
    assert |multiset(sorted)| == |sorted| && |multiset(list)| == |list|;
    assert forall n :: n in list <==> n in multiset(list);
    assert forall n :: n in sorted <==> n in multiset(sorted);
    if forall n :: n in list ==> Live(d, n) {
      LiveSort(d, list, leq);
      PrefixIsClosest(d, sorted, kept);
    }
  }

  ghost predicate InOrder(d: seq<Float>, s: seq<nat>) {
    && (forall n :: n in s ==> Live(d, n))
    && (forall i, j :: 0 <= i < j < |s| ==> Live(d, s[i]) && Live(d, s[j]) && d[s[i]].value <= d[s[j]].value)
  }

  /** On live positions the comparison is sound, so the sort really sorts. */
  lemma {:induction false} LiveSort(d: seq<Float>, list: seq<nat>, leq: (nat, nat) -> bool)
    requires forall n :: n in list ==> Live(d, n)
    requires forall a, b :: leq(a, b) == !RawLess(DistanceAt(d, b), DistanceAt(d, a))
    ensures InOrder(d, Sort(list, leq))
  {
    if list == [] {
    } else {
      LiveSort(d, list[..|list| - 1], leq);
      LiveInsert(d, Sort(list[..|list| - 1], leq), list[|list| - 1], leq);
    }
  }

  lemma {:induction false} LiveInsert(d: seq<Float>, s: seq<nat>, x: nat, leq: (nat, nat) -> bool)
    requires InOrder(d, s) && Live(d, x)
    requires forall a, b :: leq(a, b) == !RawLess(DistanceAt(d, b), DistanceAt(d, a))
    ensures InOrder(d, Insert(s, x, leq))
    ensures forall n :: n in Insert(s, x, leq) <==> n in s || n == x
  {
    if s == [] {
    } else if leq(s[0], x) {
      var rest := Insert(s[1..], x, leq);
      LiveInsert(d, s[1..], x, leq);
      assert forall n :: n in s <==> n == s[0] || n in s[1..];
      forall n | n in rest ensures d[s[0]].value <= d[n].value {
        if n != x {
          var i :| 0 <= i < |s[1..]| && s[1..][i] == n;
          assert d[s[0]].value <= d[s[i + 1]].value;
        }
      }
      InOrderCons(d, s[0], rest);
    } else {
      forall n | n in s ensures d[x].value <= d[n].value {
        var i :| 0 <= i < |s| && s[i] == n;
        assert i > 0 ==> d[s[0]].value <= d[s[i]].value;
      }
      InOrderCons(d, x, s);
    }
  }

  lemma InOrderCons(d: seq<Float>, x: nat, s: seq<nat>)
    requires InOrder(d, s) && Live(d, x) && forall n :: n in s ==> d[x].value <= d[n].value
    ensures InOrder(d, [x] + s)
  {
    var r := [x] + s;
    assert forall j :: 0 < j < |r| ==> r[j] == s[j - 1] && r[j] in s;
  }

  lemma PrefixIsClosest(d: seq<Float>, sorted: seq<nat>, kept: seq<nat>)
    requires InOrder(d, sorted) && kept <= sorted
    ensures InOrder(d, kept)
    ensures forall n, m :: n in kept && m in sorted && m !in kept ==> d[n].value <= d[m].value
  {
    assert forall k :: 0 <= k < |kept| ==> kept[k] == sorted[k] && kept[k] in sorted;
    forall n, m | n in kept && m in sorted && m !in kept ensures d[n].value <= d[m].value {
      var i :| 0 <= i < |kept| && kept[i] == n;
      var j :| 0 <= j < |sorted| && sorted[j] == m;
      assert forall k :: 0 <= k < |kept| ==> kept[k] == sorted[k] && kept[k] in kept;
    }
  }

  /** What the reverse edge makes of the list of `n`: one more entry, or, of a full list and the new
      entry together, the closest part. A full list without a vector stays. */
  ghost predicate Extended(dist: (Vector, Vector) -> real, vecs: seq<Option<Vector>>, n: nat, pos: nat,
                           maxConn: nat, list: seq<nat>, list': seq<nat>) {
    if |list| < 2 * maxConn then list' == list + [pos]
    else if n < |vecs| then ClosestKept(Distances(dist, vecs, vecs[n]), list + [pos], maxConn, list')
    else list' == list
  }

  /** Adds the reverse edge from `n` to `pos`, pruning an already full list. */
  method AddReverse(dist: (Vector, Vector) -> real, vecs: seq<Option<Vector>>, adj: Layer, n: nat, pos: nat,
                    maxConn: nat, ghost l: nat, ghost levels: map<nat, nat>) returns (adj': Layer)
    requires LayerInv(adj, l, levels, maxConn)
    requires n != pos && n in levels && levels[n] >= l && pos in levels && levels[pos] >= l
    requires pos !in Neighbours(adj, n)
    ensures LayerInv(adj', l, levels, maxConn) && |adj'| == |adj|
    ensures n < |adj| ==> Extended(dist, vecs, n, pos, maxConn, adj[n], adj'[n])
    ensures forall p :: 0 <= p < |adj| && p != n ==> adj'[p] == adj[p]
  {
    adj' := adj;
    if n < |adj| {
      assert ListInv(adj[n], n, l, levels, maxConn);
      var list := adj[n] + [pos];
      assert Distinct(list);
      if |adj[n]| < 2 * maxConn {
        adj' := adj[n := list];
      } else if n < |vecs| {
        var d := Distances(dist, vecs, vecs[n]);
        var kept := Prune(d, list, maxConn);
        assert ListInv(kept, n, l, levels, maxConn);
        adj' := adj[n := kept];
      }
    }
  }

  /** The lists of a layer after `pos` was linked to the selected positions, both ways. */
  ghost predicate LinkedBothWays(dist: (Vector, Vector) -> real, vecs: seq<Option<Vector>>, adj: Layer, pos: nat,
                                 selected: seq<nat>, maxConn: nat, adj': Layer) {
    && pos < |adj'|
    && adj'[pos] == selected
    && (forall n: nat {:trigger Extended(dist, vecs, n, pos, maxConn, Neighbours(adj, n), adj'[n])} ::
          n in selected && n < |adj'| ==> Extended(dist, vecs, n, pos, maxConn, Neighbours(adj, n), adj'[n]))
    && (forall p: nat :: p !in selected && p != pos ==> Neighbours(adj', p) == Neighbours(adj, p))
  }

  /** The first `i` reverse edges are there, and no other list has changed. */
  ghost predicate LinkedSome(dist: (Vector, Vector) -> real, vecs: seq<Option<Vector>>, adj: Layer, pos: nat,
                             selected: seq<nat>, i: nat, maxConn: nat, adj': Layer)
  {
    && i <= |selected| && |adj'| == |adj|
    && (forall n :: n in selected[..i] && n < |adj| ==> Extended(dist, vecs, n, pos, maxConn, adj[n], adj'[n]))
    && (forall p :: 0 <= p < |adj| && p != pos && p !in selected[..i] ==> adj'[p] == adj[p])
  }

  lemma LinkedNext(dist: (Vector, Vector) -> real, vecs: seq<Option<Vector>>, adj: Layer, pos: nat,
                   selected: seq<nat>, i: nat, maxConn: nat, adj': Layer, next: Layer)
    requires LinkedSome(dist, vecs, adj, pos, selected, i, maxConn, adj') && i < |selected|
    requires Distinct(selected) && selected[i] != pos && |next| == |adj'|
    requires selected[i] < |adj| ==>
      Extended(dist, vecs, selected[i], pos, maxConn, adj'[selected[i]], next[selected[i]])
    requires forall p :: 0 <= p < |adj| && p != selected[i] ==> next[p] == adj'[p]
    ensures LinkedSome(dist, vecs, adj, pos, selected, i + 1, maxConn, next)
  {
    assert selected[..i + 1] == selected[..i] + [selected[i]];
    assert selected[i] !in selected[..i];
  }

  /** Links `pos` to the selected positions of its layer, both ways. */
  method Connect(dist: (Vector, Vector) -> real, vecs: seq<Option<Vector>>, adj: Layer, pos: nat,
                 selected: seq<nat>, maxConn: nat, ghost l: nat, ghost levels: map<nat, nat>)
    returns (adj': Layer)
    requires LayerInv(adj, l, levels - {pos}, maxConn) && pos in levels && levels[pos] >= l && pos < |adj|
    requires |selected| <= maxConn && Distinct(selected)
    requires forall n :: n in selected ==> n != pos && n in levels && levels[n] >= l
    ensures LayerInv(adj', l, levels, maxConn) && |adj'| == |adj|
    ensures LinkedBothWays(dist, vecs, adj, pos, selected, maxConn, adj')
  {
    NewLevelKeepsLayer(adj, l, levels, pos, maxConn);
    assert forall p :: 0 <= p < |adj| ==> ListInv(adj[p], p, l, levels - {pos}, maxConn);
    adj' := adj[pos := selected];
    assert ListInv(selected, pos, l, levels, maxConn);
    for i := 0 to |selected|
      invariant |adj'| == |adj| && LayerInv(adj', l, levels, maxConn)
      invariant adj'[pos] == selected
      invariant LinkedSome(dist, vecs, adj, pos, selected, i, maxConn, adj')
    {
      assert selected[i] in selected;
      var next := AddReverse(dist, vecs, adj', selected[i], pos, maxConn, l, levels);
      LinkedNext(dist, vecs, adj, pos, selected, i, maxConn, adj', next);
      adj' := next;
    }
    assert selected[..|selected|] == selected;
  }

  lemma NewLevelKeepsLayer(adj: Layer, l: nat, levels: map<nat, nat>, pos: nat, maxConn: nat)
    requires LayerInv(adj, l, levels - {pos}, maxConn)
    ensures LayerInv(adj, l, levels, maxConn)
  {
    forall p | 0 <= p < |adj| ensures ListInv(adj[p], p, l, levels, maxConn) {
      assert ListInv(adj[p], p, l, levels - {pos}, maxConn);
    }
  }
}
