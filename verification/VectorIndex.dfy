/** The vector index of a shard: id maps over a position buffer, brute-force search,
    and the layered graph on top of it. The random level of an insertion is an input,
    and so is the distance function; positions are never reused.
 */
module VectorIndex {
  import opened LayerSearch
  import opened Connectivity
  import opened HnswGraph
  import opened Sequences
  import opened StableSort
  import opened Wrappers

  datatype Config = Config(
    dim: nat, maxConnections: nat, efConstruction: nat, efSearch: nat, hnswThreshold: nat)

  datatype VectorResult = VectorResult(nodeId: int, distance: Float)

  // ---- The graph over all layers ----

  /** What a reader of the graph sees: both ends of an edge of layer `l` are distinct
      inserted positions of level at least `l`, and no list is long or repeats itself. */
  lemma EdgesAreSound(layers: seq<Layer>, entryPoint: Option<nat>, maxLevel: nat, levels: map<nat, nat>,
                      size: nat, maxConn: nat, l: nat, p: nat, i: nat)
    requires GraphInv(layers, entryPoint, maxLevel, levels, size, maxConn)
    requires l < |layers| && p < |layers[l]| && i < |layers[l][p]|
    ensures var n := layers[l][p][i];
      && n != p && p in levels && n in levels && levels[p] >= l && levels[n] >= l && n < size
      && |layers[l][p]| <= 2 * maxConn
      && forall j :: 0 <= j < |layers[l][p]| && j != i ==> layers[l][p][j] != n
  {
    assert ListInv(layers[l][p], p, l, levels, maxConn);
  }

  lemma PaddedLayer(adj: Layer, l: nat, levels: map<nat, nat>, maxConn: nat)
    requires LayerInv(adj, l, levels, maxConn)
    ensures LayerInv(adj + [[]], l, levels, maxConn)
  {
    forall p | 0 <= p < |adj + [[]]| ensures ListInv((adj + [[]])[p], p, l, levels, maxConn) {
      if p < |adj| {
        assert ListInv(adj[p], p, l, levels, maxConn);
      }
    }
  }

  /** Slots up to `pos` in one layer. */
  method PadLayer(adj: Layer, pos: nat, ghost l: nat, ghost levels: map<nat, nat>, ghost maxConn: nat)
    returns (adj': Layer)
    requires LayerInv(adj, l, levels, maxConn)
    ensures LayerInv(adj', l, levels, maxConn) && |adj'| > pos && adj <= adj'
    ensures SameLists(adj', adj)
  {
    adj' := adj;
    while |adj'| <= pos
      invariant LayerInv(adj', l, levels, maxConn) && adj <= adj'
      invariant forall p :: |adj| <= p < |adj'| ==> adj'[p] == []
    {
      PaddedLayer(adj', l, levels, maxConn);
      adj' := adj' + [[]];
    }
  }

  /** The list is the closest part, up to `maxConnections`, of a search of the layer from `entry`. */
  ghost predicate ClosestPart(d: seq<Float>, adj: Layer, entry: nat, list: seq<nat>, config: Config) {
    exists found: seq<nat>, evaluated: set<nat> :: entry < |d|
      && LayerResult(d, adj, entry, config.efConstruction, found, evaluated)
      && list == Take(found, config.maxConnections)
  }

  lemma SameWalk(d: seq<Float>, adj: Layer, adj': Layer, entry: nat, w: seq<nat>)
    requires SameLists(adj, adj') && Walk(d, adj, entry, w)
    ensures Walk(d, adj', entry, w)
  {
    forall i | 0 < i < |w| ensures Live(d, w[i]) && w[i] in Neighbours(adj', w[i - 1]) {
      assert Neighbours(adj, w[i - 1]) == Neighbours(adj', w[i - 1]);
    }
  }

  /** A search only sees the lists: empty slots at the end of a layer make no difference. */
  lemma SameSearch(d: seq<Float>, adj: Layer, adj': Layer, entry: nat, ef: nat, found: seq<nat>, evaluated: set<nat>)
    requires SameLists(adj, adj') && LayerResult(d, adj, entry, ef, found, evaluated)
    ensures LayerResult(d, adj', entry, ef, found, evaluated)
  {
    forall r | r in found ensures Expanded(d, adj', r, evaluated) {
      assert Expanded(d, adj, r, evaluated) && Neighbours(adj, r) == Neighbours(adj', r);
    }
    forall e | e in evaluated ensures Reachable(d, adj', entry, e) {
      assert Reachable(d, adj, entry, e);
      var w :| Walk(d, adj, entry, w) && w[|w| - 1] == e;
      SameWalk(d, adj, adj', entry, w);
    }
  }

  lemma SameClosestPart(d: seq<Float>, adj: Layer, adj': Layer, entry: nat, list: seq<nat>, config: Config)
    requires SameLists(adj, adj') && ClosestPart(d, adj, entry, list, config)
    ensures ClosestPart(d, adj', entry, list, config)
  {
    var found: seq<nat>, evaluated: set<nat> :| entry < |d|
      && LayerResult(d, adj, entry, config.efConstruction, found, evaluated)
      && list == Take(found, config.maxConnections);
    SameSearch(d, adj, adj', entry, config.efConstruction, found, evaluated);
  }

  lemma SameLinks(dist: (Vector, Vector) -> real, vecs: seq<Option<Vector>>, base: Layer, adj: Layer, pos: nat,
                  selected: seq<nat>, maxConn: nat, adj': Layer)
    requires SameLists(adj, base) && LinkedBothWays(dist, vecs, adj, pos, selected, maxConn, adj')
    ensures LinkedBothWays(dist, vecs, base, pos, selected, maxConn, adj')
  {
  }

  /** What linking a new position makes of one layer: its list is the closest part of a search from
      `start`, and every reverse edge is there. */
  ghost predicate LinkedLayer(dist: (Vector, Vector) -> real, vecs: seq<Option<Vector>>, d: seq<Float>, adj: Layer,
                              pos: nat, config: Config, start: nat, adj': Layer) {
    && pos < |adj'|
    && ClosestPart(d, adj, start, adj'[pos], config)
    && (config.maxConnections > 0 ==> adj'[pos] != [])
    && LinkedBothWays(dist, vecs, adj, pos, adj'[pos], config.maxConnections, adj')
  }

  lemma SameLinkedLayer(dist: (Vector, Vector) -> real, vecs: seq<Option<Vector>>, d: seq<Float>, base: Layer,
                        adj: Layer, pos: nat, config: Config, start: nat, adj': Layer)
    requires SameLists(adj, base) && LinkedLayer(dist, vecs, d, adj, pos, config, start, adj')
    ensures LinkedLayer(dist, vecs, d, base, pos, config, start, adj')
  {
    SameClosestPart(d, adj, base, start, adj'[pos], config);
    SameLinks(dist, vecs, base, adj, pos, adj'[pos], config.maxConnections, adj');
  }

  /** Where the search one layer down starts: at the head of the list, if there is one. */
  ghost function NextStart(adj': Layer, pos: nat, start: nat): nat {
    if Neighbours(adj', pos) != [] then Neighbours(adj', pos)[0] else start
  }

  /** Finds the neighbours of a new position in one layer and links it to the closest of them. */
  method InsertInLayer(dist: (Vector, Vector) -> real, vecs: seq<Option<Vector>>, d: seq<Float>, adj: Layer,
                       pos: nat, current: nat, config: Config, ghost l: nat, ghost levels: map<nat, nat>)
    returns (adj': Layer, next: nat)
    requires |d| == |vecs| && current < |d| && pos < |adj|
    requires pos in levels && levels[pos] >= l
    requires LayerInv(adj, l, levels - {pos}, config.maxConnections)
    requires current in levels - {pos} && levels[current] >= l
    requires forall p :: p in levels ==> p < |vecs|
    ensures LayerInv(adj', l, levels, config.maxConnections) && |adj'| == |adj|
    ensures next < |d| && next in levels - {pos} && levels[next] >= l
    ensures LinkedLayer(dist, vecs, d, adj, pos, config, current, adj')
    ensures next == NextStart(adj', pos, current)
  {
    var found, evaluated := SearchLayer(d, current, config.efConstruction, adj);
    FoundHaveLevel(d, adj, current, config.efConstruction, found, evaluated, l, levels - {pos}, config.maxConnections);
    var selected := Take(found, config.maxConnections);
    assert forall n :: n in selected ==> n in found;
    adj' := Connect(dist, vecs, adj, pos, selected, config.maxConnections, l, levels);
    next := if selected != [] then selected[0] else current;
  }

  lemma FoundHaveLevel(d: seq<Float>, adj: Layer, current: nat, ef: nat, found: seq<nat>, evaluated: set<nat>,
                       l: nat, levels: map<nat, nat>, maxConn: nat)
    requires current < |d| && LayerResult(d, adj, current, ef, found, evaluated)
    requires LayerInv(adj, l, levels, maxConn) && current in levels && levels[current] >= l
    ensures forall n :: n in found ==> n in levels && levels[n] >= l
    ensures Distinct(found)
  {
    forall n | n in found ensures n in levels && levels[n] >= l {
      assert Reachable(d, adj, current, n);
      var w :| Walk(d, adj, current, w) && w[|w| - 1] == n;
      WalkLevels(d, adj, current, l, levels, maxConn, w);
    }
  }

  lemma DescendKeepsLevel(adj: Layer, start: nat, current: nat, l: nat, levels: map<nat, nat>, maxConn: nat)
    requires LayerInv(adj, l, levels, maxConn) && start in levels && levels[start] >= l
    requires current != start ==> exists q: nat :: current in Neighbours(adj, q)
    ensures current in levels && levels[current] >= l
  {
    if current != start {
      var q: nat :| current in Neighbours(adj, q);
      assert ListInv(adj[q], q, l, levels, maxConn);
    }
  }

  /** Layer `k` while an insertion works its way down to layer `l`. */
  ghost predicate Halfway(layers: seq<Layer>, l: nat, levels: map<nat, nat>, pos: nat, maxConn: nat) {
    forall k :: 0 <= k < |layers| ==>
      LayerInv(layers[k], k, if k < l then levels - {pos} else levels, maxConn)
  }

  lemma StartHalfway(layers: seq<Layer>, l: nat, levels: map<nat, nat>, pos: nat, level: nat, maxConn: nat)
    requires pos !in levels && forall k :: 0 <= k < |layers| ==> LayerInv(layers[k], k, levels, maxConn)
    ensures Halfway(layers, l, levels[pos := level], pos, maxConn)
  {
    assert levels[pos := level] - {pos} == levels;
    forall k | 0 <= k < |layers|
      ensures LayerInv(layers[k], k, if k < l then levels else levels[pos := level], maxConn)
    {
      NewLevelKeepsLayer(layers[k], k, levels[pos := level], pos, maxConn);
    }
  }

  lemma HalfwayStep(layers: seq<Layer>, l: nat, levels: map<nat, nat>, pos: nat, maxConn: nat, adj: Layer)
    requires Halfway(layers, l, levels, pos, maxConn) && 0 < l <= |layers|
    requires LayerInv(adj, l - 1, levels, maxConn)
    ensures Halfway(layers[l - 1 := adj], l - 1, levels, pos, maxConn)
  {
  }

  /** The search of layer `k` starts where the layer above left off. */
  ghost predicate GoesOn(layers': seq<Layer>, pos: nat, starts: seq<nat>, k: nat) {
    k + 1 < |starts| && k + 1 < |layers'| ==> starts[k] == NextStart(layers'[k + 1], pos, starts[k + 1])
  }

  /** The layers from `l` up to `|starts|` are linked, each from its start, and the others as they were;
      each start below the first is where the layer above left off. */
  ghost predicate LinkedDown(dist: (Vector, Vector) -> real, vecs: seq<Option<Vector>>, d: seq<Float>,
                             layers: seq<Layer>, pos: nat, config: Config, starts: seq<nat>, l: nat,
                             layers': seq<Layer>) {
    && |starts| <= |layers'| == |layers|
    && (forall k :: 0 <= k < |layers| && (k < l || k >= |starts|) ==> layers'[k] == layers[k])
    && (forall k {:trigger LinkedLayer(dist, vecs, d, layers[k], pos, config, starts[k], layers'[k])} ::
          l <= k < |starts| ==> LinkedLayer(dist, vecs, d, layers[k], pos, config, starts[k], layers'[k]))
    && (forall k: nat :: k >= l ==> GoesOn(layers', pos, starts, k))
  }

  lemma LinkedDownStep(dist: (Vector, Vector) -> real, vecs: seq<Option<Vector>>, d: seq<Float>,
                       layers: seq<Layer>, pos: nat, config: Config, starts: seq<nat>, l: nat,
                       layers': seq<Layer>, start: nat, adj: Layer)
    requires LinkedDown(dist, vecs, d, layers, pos, config, starts, l, layers') && 0 < l <= |starts|
    requires l < |starts| ==> start == NextStart(layers'[l], pos, starts[l])
    requires LinkedLayer(dist, vecs, d, layers'[l - 1], pos, config, start, adj)
    ensures LinkedDown(dist, vecs, d, layers, pos, config, starts[l - 1 := start], l - 1, layers'[l - 1 := adj])
  {
    var starts', layers1 := starts[l - 1 := start], layers'[l - 1 := adj];
    forall k | l - 1 <= k < |starts'|
      ensures LinkedLayer(dist, vecs, d, layers[k], pos, config, starts'[k], layers1[k])
    {
      if k >= l {
        assert starts'[k] == starts[k] && layers1[k] == layers'[k];
      } else {
        assert layers'[k] == layers[k];
      }
    }
    forall k: nat | k >= l - 1 ensures GoesOn(layers1, pos, starts', k) {
      if k >= l {
        assert GoesOn(layers', pos, starts, k);
      }
    }
  }

  /** Where the linking stands above layer `l`: the start of the next search, and the layers so far. */
  ghost predicate Linking(dist: (Vector, Vector) -> real, vecs: seq<Option<Vector>>, d: seq<Float>, pos: nat,
                          config: Config, start: nat, layers: seq<Layer>, l: nat, starts: seq<nat>, current: nat,
                          layers': seq<Layer>) {
    && l <= |starts| <= |layers'| && starts != [] && starts[|starts| - 1] == start
    && (l < |starts| ==> current == NextStart(layers'[l], pos, starts[l]))
    && (l == |starts| ==> current == start)
    && LinkedDown(dist, vecs, d, layers, pos, config, starts, l, layers')
  }

  lemma LinkingStep(dist: (Vector, Vector) -> real, vecs: seq<Option<Vector>>, d: seq<Float>, pos: nat,
                    config: Config, start: nat, layers: seq<Layer>, l: nat, starts: seq<nat>, current: nat,
                    layers': seq<Layer>, next: nat, adj: Layer, starts2: seq<nat>, layers2: seq<Layer>)
    requires Linking(dist, vecs, d, pos, config, start, layers, l, starts, current, layers') && 0 < l
    requires LinkedLayer(dist, vecs, d, layers'[l - 1], pos, config, current, adj)
    requires next == NextStart(adj, pos, current)
    requires starts2 == starts[l - 1 := current] && layers2 == layers'[l - 1 := adj]
    ensures Linking(dist, vecs, d, pos, config, start, layers, l - 1, starts2, next, layers2)
  {
    LinkedDownStep(dist, vecs, d, layers, pos, config, starts, l, layers', current, adj);
  }

  /** A position that a search of layer `l - 1` can start from. */
  predicate CanStart(d: seq<Float>, levels: map<nat, nat>, pos: nat, l: nat, current: nat) {
    current < |d| && current in levels - {pos} && (l > 0 ==> levels[current] >= l - 1)
  }

  /** Links layer `l - 1`. */
  method LinkNext(dist: (Vector, Vector) -> real, vecs: seq<Option<Vector>>, d: seq<Float>, pos: nat,
                  config: Config, ghost start: nat, ghost layers0: seq<Layer>, l: nat, ghost starts: seq<nat>,
                  current: nat, layers: seq<Layer>, ghost levels: map<nat, nat>)
    returns (next: nat, layers': seq<Layer>, ghost starts': seq<nat>)
    requires pos in levels && |vecs| == |d| && 0 < l <= |layers| && l - 1 <= levels[pos] && pos < |layers[l - 1]|
    requires forall p :: p in levels ==> p < |d|
    requires Linking(dist, vecs, d, pos, config, start, layers0, l, starts, current, layers)
    requires CanStart(d, levels, pos, l, current)
    requires LayerInv(layers[l - 1], l - 1, levels - {pos}, config.maxConnections)
    ensures Linking(dist, vecs, d, pos, config, start, layers0, l - 1, starts', next, layers')
    ensures CanStart(d, levels, pos, l - 1, next) && |starts'| == |starts|
    ensures |layers'| == |layers| && layers' == layers[l - 1 := layers'[l - 1]]
    ensures |layers'[l - 1]| == |layers[l - 1]| && LayerInv(layers'[l - 1], l - 1, levels, config.maxConnections)
  {
    var adj;
    adj, next := InsertInLayer(dist, vecs, d, layers[l - 1], pos, current, config, l - 1, levels);
    starts', layers' := starts[l - 1 := current], layers[l - 1 := adj];
    LinkingStep(dist, vecs, d, pos, config, start, layers0, l, starts, current, layers, next, adj, starts', layers');
  }

  /** The layers with slots for a new position. */
  ghost predicate Padded(layers: seq<Layer>, level: nat, layers': seq<Layer>) {
    && |layers'| == (if |layers| <= level then level + 1 else |layers|)
    && forall l :: 0 <= l < |layers'| ==> SameLists(layers'[l], LayerAt(layers, l))
  }

  /** What an insertion makes of the layers. From min(level, maxLevel) down each layer is linked from its
      start: the first is where the greedy descent from the entry point ends, the next ones where the
      layer above leaves off. No other list changes. */
  ghost predicate InsertedInto(dist: (Vector, Vector) -> real, vecs: seq<Option<Vector>>, embedding: Vector,
                               config: Config, layers: seq<Layer>, entryPoint: Option<nat>, maxLevel: nat, pos: nat,
                               level: nat, layers': seq<Layer>) {
    && |layers'| == (if |layers| <= level then level + 1 else |layers|)
    && (entryPoint.None? ==> forall l :: 0 <= l < |layers'| ==> SameLists(layers'[l], LayerAt(layers, l)))
    && (entryPoint.Some? ==>
          exists starts: seq<nat> ::
            InsertedFrom(dist, vecs, Distances(dist, vecs, Some(embedding)), config, layers, entryPoint.value, maxLevel,
                         pos, level, layers', starts))
  }

  /** The position is the entry point or strictly closer. */
  ghost predicate IsOrCloser(d: seq<Float>, p: nat, entry: nat) {
    p == entry || (p < |d| && entry < |d| && RawLess(d[p], d[entry]))
  }

  ghost predicate InsertedFrom(dist: (Vector, Vector) -> real, vecs: seq<Option<Vector>>, d: seq<Float>,
                               config: Config, layers: seq<Layer>, entry: nat, maxLevel: nat, pos: nat,
                               level: nat, layers': seq<Layer>, starts: seq<nat>) {
    && |layers'| == (if |layers| <= level then level + 1 else |layers|)
    && |starts| == (if level <= maxLevel then level else maxLevel) + 1
    && DescendsTo(d, layers, entry, maxLevel, level, starts[|starts| - 1])
    && IsOrCloser(d, starts[|starts| - 1], entry)
    && (forall l {:trigger LinkedLayer(dist, vecs, d, LayerAt(layers, l), pos, config, starts[l], layers'[l])} ::
          0 <= l < |starts| && l < |layers'| ==>
            LinkedLayer(dist, vecs, d, LayerAt(layers, l), pos, config, starts[l], layers'[l]))
    && (forall l :: |starts| <= l < |layers'| ==> SameLists(layers'[l], LayerAt(layers, l)))
    && (forall l: nat :: GoesOn(layers', pos, starts, l))
  }

  lemma ReachedLevel(d: seq<Float>, layers: seq<Layer>, level: nat, l: nat, stops: seq<nat>, entry: nat,
                     maxLevel: nat, current: nat)
    requires Descent(d, layers, l, stops) && stops[0] == current && stops[|stops| - 1] == entry
    requires |stops| == maxLevel - l + 1 && l <= maxLevel && (l == level || (l == maxLevel && l < level))
    ensures DescendsTo(d, layers, entry, maxLevel, level, current)
  {
    assert Descent(d, layers, level, stops);
  }

  lemma SameDescent(d: seq<Float>, adj: Layer, adj': Layer, from: nat, to: nat)
    requires SameLists(adj, adj') && Descends(d, adj, from, to)
    ensures Descends(d, adj', from, to)
  {
    var w: seq<nat> :| GreedySteps(d, adj, w) && w[0] == from && w[|w| - 1] == to;
    forall i: nat ensures StepAt(d, adj', w, i) {
      assert StepAt(d, adj, w, i);
      assert i < |w| ==> Neighbours(adj, w[i]) == Neighbours(adj', w[i]);
    }
    assert GreedySteps(d, adj', w);
    assert Neighbours(adj, to) == Neighbours(adj', to);
  }

  lemma SameDescents(d: seq<Float>, layers: seq<Layer>, padded: seq<Layer>, level: nat, from: nat, top: nat, to: nat)
    requires Padded(layers, level, padded) && top < |layers| && DescendsTo(d, padded, from, top, level, to)
    ensures DescendsTo(d, layers, from, top, level, to)
  {
    var stops: seq<nat> :|
      Descent(d, padded, level, stops) && stops[|stops| - 1] == from && stops[0] == to
      && |stops| == if top <= level then 1 else top - level + 1;
    forall k: nat ensures StopsAt(d, layers, level, stops, k) {
      assert StopsAt(d, padded, level, stops, k);
      if k + 1 < |stops| {
        SameDescent(d, padded[level + 1 + k], layers[level + 1 + k], stops[k + 1], stops[k]);
      }
    }
    assert Descent(d, layers, level, stops);
  }

  lemma InsertedFromLink(dist: (Vector, Vector) -> real, vecs: seq<Option<Vector>>, d: seq<Float>,
                         config: Config, layers: seq<Layer>, entry: nat, maxLevel: nat, pos: nat,
                         level: nat, layers': seq<Layer>, starts: seq<nat>)
    requires level < |layers|
    requires |starts| == (if level <= maxLevel then level else maxLevel) + 1
    requires DescendsTo(d, layers, entry, maxLevel, level, starts[|starts| - 1])
    requires IsOrCloser(d, starts[|starts| - 1], entry)
    requires LinkedDown(dist, vecs, d, layers, pos, config, starts, 0, layers')
    ensures InsertedFrom(dist, vecs, d, config, layers, entry, maxLevel, pos, level, layers', starts)
  {
  }

  /** Empty slots make no difference to an insertion. */
  lemma InsertedFromPadded(dist: (Vector, Vector) -> real, vecs: seq<Option<Vector>>, d: seq<Float>,
                           config: Config, layers: seq<Layer>, entry: nat, maxLevel: nat, pos: nat,
                           level: nat, padded: seq<Layer>, layers': seq<Layer>, starts: seq<nat>)
    requires Padded(layers, level, padded) && maxLevel < |layers|
    requires InsertedFrom(dist, vecs, d, config, padded, entry, maxLevel, pos, level, layers', starts)
    ensures InsertedFrom(dist, vecs, d, config, layers, entry, maxLevel, pos, level, layers', starts)
    ensures |layers'| == |padded|
  {
    SameDescents(d, layers, padded, level, entry, maxLevel, starts[|starts| - 1]);
    forall l: nat | l < |starts| && l < |layers'|
      ensures LinkedLayer(dist, vecs, d, LayerAt(layers, l), pos, config, starts[l], layers'[l])
    {
      assert LinkedLayer(dist, vecs, d, LayerAt(padded, l), pos, config, starts[l], layers'[l]);
      SameLinkedLayer(dist, vecs, d, LayerAt(layers, l), padded[l], pos, config, starts[l], layers'[l]);
    }
  }

  /** The first start. From the level of the entry point on it is the entry point; below, no
      neighbour in the layer above is closer. */
  lemma FirstStartMeans(dist: (Vector, Vector) -> real, vecs: seq<Option<Vector>>, d: seq<Float>, config: Config,
                        layers: seq<Layer>, entry: nat, maxLevel: nat, pos: nat, level: nat, layers': seq<Layer>,
                        starts: seq<nat>)
    requires InsertedFrom(dist, vecs, d, config, layers, entry, maxLevel, pos, level, layers', starts)
    requires maxLevel < |layers|
    ensures |starts| == (if level <= maxLevel then level else maxLevel) + 1
    ensures level >= maxLevel ==> starts[|starts| - 1] == entry
    ensures starts[|starts| - 1] == entry
      || (starts[|starts| - 1] < |d| && entry < |d| && d[starts[|starts| - 1]].Num? && d[entry].Num?
          && d[starts[|starts| - 1]].value < d[entry].value)
    ensures level < maxLevel && starts[level] < |layers[level + 1]| ==>
      starts[level] < |d| &&
      forall n :: n in layers[level + 1][starts[level]] && n < |d| && d[n].Num? && d[starts[level]].Num? ==>
        d[starts[level]].value <= d[n].value
  {
    DescentStops(d, layers, entry, maxLevel, level, starts[|starts| - 1]);
  }

  lemma DescentStops(d: seq<Float>, layers: seq<Layer>, from: nat, top: nat, level: nat, to: nat)
    requires DescendsTo(d, layers, from, top, level, to) && top < |layers|
    ensures if level < top then LocalMinimum(d, layers[level + 1], to) else to == from
  {
    var stops: seq<nat> :|
      Descent(d, layers, level, stops) && stops[|stops| - 1] == from && stops[0] == to
      && |stops| == if top <= level then 1 else top - level + 1;
    assert StopsAt(d, layers, level, stops, 0);
  }

  /** The next starts are the heads of the lists above, where there is one. */
  lemma NextStartMeans(dist: (Vector, Vector) -> real, vecs: seq<Option<Vector>>, d: seq<Float>, config: Config,
                       layers: seq<Layer>, entry: nat, maxLevel: nat, pos: nat, level: nat, layers': seq<Layer>,
                       starts: seq<nat>, l: nat)
    requires InsertedFrom(dist, vecs, d, config, layers, entry, maxLevel, pos, level, layers', starts)
    requires l + 1 < |starts| && l + 1 < |layers'|
    ensures pos < |layers'[l + 1]|
    ensures starts[l] == if layers'[l + 1][pos] == [] then starts[l + 1] else layers'[l + 1][pos][0]
  {
    assert LinkedLayer(dist, vecs, d, LayerAt(layers, l + 1), pos, config, starts[l + 1], layers'[l + 1]);
    assert GoesOn(layers', pos, starts, l);
  }

  /** The lists of a linked layer: the new position's is short, every reverse edge is there, or was
      weighed in a full list, and no other list changed. */
  lemma LinksMean(dist: (Vector, Vector) -> real, vecs: seq<Option<Vector>>, d: seq<Float>, adj: Layer, pos: nat,
                  config: Config, start: nat, adj': Layer, p: nat)
    requires LinkedLayer(dist, vecs, d, adj, pos, config, start, adj') && p < |adj'|
    requires p < |vecs|
    ensures |adj'[pos]| <= config.maxConnections
    ensures exists found: seq<nat>, evaluated: set<nat> ::
      start < |d| && LayerResult(d, adj, start, config.efConstruction, found, evaluated)
      && adj'[pos] == Take(found, config.maxConnections)
    ensures var was := if p < |adj| then adj[p] else [];
      if p == pos then true
      else if p !in adj'[pos] then adj'[p] == was
      else if |was| < 2 * config.maxConnections then adj'[p] == was + [pos]
      else ClosestKept(Distances(dist, vecs, vecs[p]), was + [pos], config.maxConnections, adj'[p])
  {
    assert Extended(dist, vecs, p, pos, config.maxConnections, Neighbours(adj, p), adj'[p]) || p !in adj'[pos];
  }

  lemma InsertedIsGrown(dist: (Vector, Vector) -> real, vecs: seq<Option<Vector>>, embedding: Vector,
                        config: Config, layers: seq<Layer>, entryPoint: Option<nat>, maxLevel: nat, pos: nat,
                        level: nat, layers': seq<Layer>)
    requires InsertedInto(dist, vecs, embedding, config, layers, entryPoint, maxLevel, pos, level, layers')
    ensures Grown(dist, vecs, layers, entryPoint, maxLevel, pos, level, config.maxConnections, layers')
    ensures config.maxConnections > 0 ==> forall l :: 0 <= l < |layers'| && LinksIn(entryPoint, maxLevel, level, l) ==>
      Neighbours(layers'[l], pos) != []
  {
    if entryPoint.Some? {
      var starts: seq<nat> :|
        InsertedFrom(dist, vecs, Distances(dist, vecs, Some(embedding)), config, layers, entryPoint.value, maxLevel,
                     pos, level, layers', starts);
      forall l | 0 <= l < |starts| && l < |layers'|
        ensures LinkedBothWays(dist, vecs, LayerAt(layers, l), pos, Neighbours(layers'[l], pos), config.maxConnections,
                               layers'[l])
        ensures config.maxConnections > 0 ==> Neighbours(layers'[l], pos) != []
      {
        assert LinkedLayer(dist, vecs, Distances(dist, vecs, Some(embedding)), LayerAt(layers, l), pos, config,
                           starts[l], layers'[l]);
      }
    }
  }

  /** As long as no list is full every layer is joined. */
  ghost predicate ShapeInv(layers: seq<Layer>, levels: map<nat, nat>, maxConn: nat) {
    !HasFull(layers, maxConn) ==> GraphJoined(layers, levels)
  }

  lemma InsertKeepsShape(dist: (Vector, Vector) -> real, vecs: seq<Option<Vector>>, embedding: Vector,
                         config: Config, layers: seq<Layer>, entryPoint: Option<nat>, maxLevel: nat,
                         levels: map<nat, nat>, pos: nat, level: nat, layers': seq<Layer>)
    requires GraphInv(layers, entryPoint, maxLevel, levels, pos, config.maxConnections)
    requires ShapeInv(layers, levels, config.maxConnections)
    requires InsertedInto(dist, vecs, embedding, config, layers, entryPoint, maxLevel, pos, level, layers')
    requires forall l :: 0 <= l < |layers'| ==> LayerInv(layers'[l], l, levels[pos := level], config.maxConnections)
    ensures ShapeInv(layers', levels[pos := level], config.maxConnections)
  {
    var maxConn := config.maxConnections;
    InsertedIsGrown(dist, vecs, embedding, config, layers, entryPoint, maxLevel, pos, level, layers');
    if HasFull(layers, maxConn) || Cut(layers, entryPoint, maxLevel, pos, level, maxConn, layers') {
      CutLeavesFull(dist, vecs, layers, entryPoint, maxLevel, levels, pos, level, maxConn, layers');
    } else if maxConn > 0 {
      GrowthKeepsJoined(dist, vecs, layers, entryPoint, maxLevel, levels, pos, level, maxConn, layers');
    } else {
      assert Full(layers', 0, 0, maxConn);
    }
  }

  // ---- The id maps and the buffer ----

  /** The maps and the buffer describe the same live positions. */
  ghost predicate Agree(ids: map<int, nat>, names: seq<int>, vecs: seq<Option<Vector>>) {
    && |vecs| == |names|
    && (forall id :: id in ids ==> ids[id] < |names| && names[ids[id]] == id && vecs[ids[id]].Some?)
    && (forall p :: 0 <= p < |vecs| && vecs[p].Some? ==> names[p] in ids && ids[names[p]] == p)
  }

  /** The latest embedding of every live id. */
  ghost function Meaning(ids: map<int, nat>, names: seq<int>, vecs: seq<Option<Vector>>): map<int, Vector>
    requires Agree(ids, names, vecs)
  {
    map id | id in ids :: vecs[ids[id]].value
  }

  lemma UpdateMeans(ids: map<int, nat>, names: seq<int>, vecs: seq<Option<Vector>>, id: int, v: Vector)
    requires Agree(ids, names, vecs) && id in ids
    ensures Agree(ids, names, vecs[ids[id] := Some(v)])
    ensures Meaning(ids, names, vecs[ids[id] := Some(v)]) == Meaning(ids, names, vecs)[id := v]
  {
    var vecs' := vecs[ids[id] := Some(v)];
    forall i | i in ids && i != id ensures vecs'[ids[i]] == vecs[ids[i]] {
      assert names[ids[i]] != names[ids[id]];
    }
  }

  lemma AppendMeans(ids: map<int, nat>, names: seq<int>, vecs: seq<Option<Vector>>, id: int, v: Vector)
    requires Agree(ids, names, vecs) && id !in ids
    ensures Agree(ids[id := |names|], names + [id], vecs + [Some(v)])
    ensures Meaning(ids[id := |names|], names + [id], vecs + [Some(v)]) == Meaning(ids, names, vecs)[id := v]
  {
    var ids', names', vecs' := ids[id := |names|], names + [id], vecs + [Some(v)];
    forall p | 0 <= p < |vecs'| && vecs'[p].Some? ensures names'[p] in ids' && ids'[names'[p]] == p {
      if p < |vecs| {
        assert vecs'[p] == vecs[p] && names'[p] == names[p];
      }
    }
    forall i | i in ids' ensures ids'[i] < |names'| && names'[ids'[i]] == i && vecs'[ids'[i]].Some? {
      if i != id {
        assert vecs'[ids[i]] == vecs[ids[i]] && names'[ids[i]] == names[ids[i]];
      }
    }
    assert Meaning(ids', names', vecs').Keys == Meaning(ids, names, vecs)[id := v].Keys;
  }

  lemma RemoveMeans(ids: map<int, nat>, names: seq<int>, vecs: seq<Option<Vector>>, id: int)
    requires Agree(ids, names, vecs) && id in ids
    ensures var (ids', vecs') := ((map i | i in ids && i != id :: ids[i]), vecs[ids[id] := None]);
      Agree(ids', names, vecs')
      && Meaning(ids', names, vecs') ==
           map i | i in Meaning(ids, names, vecs) && i != id :: Meaning(ids, names, vecs)[i]
  {
    var vecs' := vecs[ids[id] := None];
    forall i | i in ids && i != id ensures vecs'[ids[i]] == vecs[ids[i]] {
      assert names[ids[i]] != names[ids[id]];
    }
  }

  // ---- The index ----

  class ShardVectorIndex {
    const config: Config
    const dist: (Vector, Vector) -> real
    var idToPos: map<int, nat>
    var posToId: seq<int>
    var vectors: seq<Option<Vector>>
    var layers: seq<Layer>
    var entryPoint: Option<nat>
    var maxLevel: nat
    /** The level each inserted position was given. */
    ghost var levels: map<nat, nat>

    ghost predicate Valid()
      reads this
    {
      && Agree(idToPos, posToId, vectors)
      && GraphInv(layers, entryPoint, maxLevel, levels, |posToId|, config.maxConnections)
      && Shaped()
    }

    ghost predicate Shaped()
      reads this
    {
      ShapeInv(layers, levels, config.maxConnections)
    }

    /** What the index stands for: the latest embedding of every live id. */
    ghost function Model(): map<int, Vector>
      requires Agree(idToPos, posToId, vectors)
      reads this
    {
      Meaning(idToPos, posToId, vectors)
    }

    constructor (config: Config, dist: (Vector, Vector) -> real)
      ensures Valid() && Model() == map[] && this.config == config && this.dist == dist
      ensures idToPos == map[] && posToId == [] && vectors == []
      ensures layers == [] && entryPoint.None? && maxLevel == 0 && levels == map[]
    {
      this.config, this.dist := config, dist;
      idToPos, posToId, vectors := map[], [], [];
      layers, entryPoint, maxLevel, levels := [], None, 0, map[];
    }

    /** Insert or update; an embedding of the wrong dimension is ignored. */
    method Upsert(nodeId: int, embedding: Vector, level: nat)
      requires Valid()
      modifies this
      ensures Valid()
      ensures Model() == if |embedding| == config.dim then old(Model())[nodeId := embedding] else old(Model())
      ensures |embedding| != config.dim ==> unchanged(this)
      ensures |embedding| == config.dim && nodeId in old(idToPos) ==>
        && vectors == old(vectors)[old(idToPos)[nodeId] := Some(embedding)]
        && unchanged(`idToPos, `posToId, `layers, `entryPoint, `maxLevel, `levels)
      ensures |embedding| == config.dim && nodeId !in old(idToPos) ==>
        && idToPos == old(idToPos)[nodeId := old(|posToId|)]
        && posToId == old(posToId) + [nodeId] && vectors == old(vectors) + [Some(embedding)]
      ensures |embedding| == config.dim && nodeId !in old(idToPos) ==>
        if |posToId| < config.hnswThreshold then unchanged(`layers, `entryPoint, `maxLevel, `levels)
        else
          && levels == old(levels)[old(|posToId|) := level]
          && entryPoint ==
               (if old(entryPoint).None? || level > old(maxLevel) then Some(old(|posToId|)) else old(entryPoint))
          && maxLevel == (if old(entryPoint).None? || level > old(maxLevel) then level else old(maxLevel))
          && InsertedInto(dist, vectors, embedding, config, old(layers), old(entryPoint), old(maxLevel),
                          old(|posToId|), level, layers)
    {
      if |embedding| != config.dim {
        return;
      }
      if nodeId in idToPos {
        UpdateInPlace(nodeId, embedding);
      } else {
        var pos := Append(nodeId, embedding);
        if |posToId| >= config.hnswThreshold {
          Grow(pos, embedding, level);
        }
      }
    }

    /** Links the last position into the graph. */
    method Grow(pos: nat, embedding: Vector, level: nat)
      requires GraphInv(layers, entryPoint, maxLevel, levels, pos, config.maxConnections) && Shaped()
      requires |vectors| == |posToId| == pos + 1
      modifies this`layers, this`entryPoint, this`maxLevel, this`levels
      ensures GraphInv(layers, entryPoint, maxLevel, levels, |posToId|, config.maxConnections) && Shaped()
      ensures levels == old(levels)[pos := level]
      ensures entryPoint == if old(entryPoint).None? || level > old(maxLevel) then Some(pos) else old(entryPoint)
      ensures maxLevel == if old(entryPoint).None? || level > old(maxLevel) then level else old(maxLevel)
      ensures InsertedInto(dist, vectors, embedding, config, old(layers), old(entryPoint), old(maxLevel), pos, level,
                           layers)
    {
      ghost var layers0, top0, maxLevel0, levels0 := layers, entryPoint, maxLevel, levels;
      HnswInsert(pos, embedding, level);
      InsertKeepsShape(dist, vectors, embedding, config, layers0, top0, maxLevel0, levels0, pos, level, layers);
    }

    method UpdateInPlace(nodeId: int, embedding: Vector)
      requires Agree(idToPos, posToId, vectors) && nodeId in idToPos
      modifies this`vectors
      ensures Agree(idToPos, posToId, vectors) && Model() == old(Model())[nodeId := embedding]
      ensures vectors == old(vectors)[idToPos[nodeId] := Some(embedding)]
    {
      UpdateMeans(idToPos, posToId, vectors, nodeId, embedding);
      vectors := vectors[idToPos[nodeId] := Some(embedding)];
    }

    method Append(nodeId: int, embedding: Vector) returns (pos: nat)
      requires Agree(idToPos, posToId, vectors) && nodeId !in idToPos
      modifies this`idToPos, this`posToId, this`vectors
      ensures Agree(idToPos, posToId, vectors) && Model() == old(Model())[nodeId := embedding]
      ensures pos == old(|posToId|) && idToPos == old(idToPos)[nodeId := pos]
      ensures posToId == old(posToId) + [nodeId] && vectors == old(vectors) + [Some(embedding)]
    {
      AppendMeans(idToPos, posToId, vectors, nodeId, embedding);
      pos := |posToId|;
      idToPos := idToPos[nodeId := pos];
      posToId := posToId + [nodeId];
      vectors := vectors + [Some(embedding)];
    }

    /** Forget the id and overwrite its vector; the position stays, dead. */
    method Remove(nodeId: int)
      requires Valid()
      modifies this`idToPos, this`vectors
      ensures Valid()
      ensures Model() == map id | id in old(Model()) && id != nodeId :: old(Model())[id]
      ensures vectors ==
        if nodeId in old(idToPos) then old(vectors)[old(idToPos)[nodeId] := None] else old(vectors)
    {
      if nodeId in idToPos {
        RemoveMeans(idToPos, posToId, vectors, nodeId);
        var pos := idToPos[nodeId];
        idToPos := map id | id in idToPos && id != nodeId :: idToPos[id];
        vectors := vectors[pos := None];
      }
    }

    method EnsureSlots(pos: nat, level: nat)
      requires GraphInv(layers, entryPoint, maxLevel, levels, |posToId|, config.maxConnections)
      modifies this`layers
      ensures GraphInv(layers, entryPoint, maxLevel, levels, |posToId|, config.maxConnections)
      ensures |layers| > level && forall l :: 0 <= l <= level ==> |layers[l]| > pos
      ensures Padded(old(layers), level, layers)
    {
      while |layers| <= level
        invariant GraphInv(layers, entryPoint, maxLevel, levels, |posToId|, config.maxConnections)
        invariant |layers| <= level + 1 || layers == old(layers)
        invariant old(layers) <= layers && forall l :: |old(layers)| <= l < |layers| ==> layers[l] == []
      {
        layers := layers + [[]];
      }
      for l := 0 to level + 1
        invariant GraphInv(layers, entryPoint, maxLevel, levels, |posToId|, config.maxConnections)
        invariant |layers| > level && forall k :: 0 <= k < l ==> |layers[k]| > pos
        invariant Padded(old(layers), level, layers)
      {
        var adj := PadLayer(layers[l], pos, l, levels, config.maxConnections);
        layers := layers[l := adj];
      }
    }

    /** Inserts a fresh position: descend from the top, then link it layer by layer. */
    method HnswInsert(pos: nat, embedding: Vector, level: nat)
      requires GraphInv(layers, entryPoint, maxLevel, levels, |posToId|, config.maxConnections)
      requires |vectors| == |posToId| && pos < |posToId| && pos !in levels
      modifies this`layers, this`entryPoint, this`maxLevel, this`levels
      ensures GraphInv(layers, entryPoint, maxLevel, levels, |posToId|, config.maxConnections)
      ensures levels == old(levels)[pos := level]
      ensures entryPoint == if old(entryPoint).None? || level > old(maxLevel) then Some(pos) else old(entryPoint)
      ensures maxLevel == if old(entryPoint).None? || level > old(maxLevel) then level else old(maxLevel)
      ensures InsertedInto(dist, vectors, embedding, config, old(layers), old(entryPoint), old(maxLevel), pos, level,
                           layers)
    {
      EnsureSlots(pos, level);
      if entryPoint.None? {
        StartHalfway(layers, 0, levels, pos, level, config.maxConnections);
        entryPoint, maxLevel := Some(pos), level;
        levels := levels[pos := level];
        return;
      }
      ghost var padded := layers;
      ghost var starts := DescendAndLink(pos, embedding, level);
      InsertedFromPadded(dist, vectors, Distances(dist, vectors, Some(embedding)), config, old(layers),
                         entryPoint.value, maxLevel, pos, level, padded, layers, starts);
      if level > maxLevel {
        entryPoint, maxLevel := Some(pos), level;
      }
    }

    /** An insertion into a graph with slots and an entry point. */
    method DescendAndLink(pos: nat, embedding: Vector, level: nat) returns (ghost starts: seq<nat>)
      requires GraphInv(layers, entryPoint, maxLevel, levels, |posToId|, config.maxConnections) && entryPoint.Some?
      requires |vectors| == |posToId| && pos < |posToId| && pos !in levels
      requires |layers| > level && forall l :: 0 <= l <= level ==> |layers[l]| > pos
      modifies this`layers, this`levels
      ensures levels == old(levels)[pos := level]
      ensures forall l :: 0 <= l < |layers| ==> LayerInv(layers[l], l, levels, config.maxConnections)
      ensures InsertedFrom(dist, vectors, Distances(dist, vectors, Some(embedding)), config, old(layers),
                           entryPoint.value, maxLevel, pos, level, layers, starts)
    {
      var d := Distances(dist, vectors, Some(embedding));
      var current := DescendTo(d, level);
      ghost var layers0 := layers;
      StartHalfway(layers, (if level <= maxLevel then level else maxLevel) + 1, levels, pos, level,
                   config.maxConnections);
      levels := levels[pos := level];
      starts := Link(d, pos, current, level);
      InsertedFromLink(dist, vectors, d, config, layers0, entryPoint.value, maxLevel, pos, level, layers, starts);
    }

    /** Where the greedy part stands above layer `l`. */
    ghost predicate Descending(d: seq<Float>, l: nat, stops: seq<nat>, current: nat)
      reads this
    {
      && l <= maxLevel && current in levels && levels[current] >= l && current < |d| && entryPoint.Some?
      && (current != entryPoint.value ==>
            entryPoint.value < |d| && RawLess(d[current], d[entryPoint.value]))
      && Descent(d, layers, l, stops) && stops[0] == current && stops[|stops| - 1] == entryPoint.value
      && |stops| == maxLevel - l + 1
    }

    method DescendNext(d: seq<Float>, l: nat, current: nat, ghost stops: seq<nat>)
      returns (next: nat, ghost stops': seq<nat>)
      requires GraphInv(layers, entryPoint, maxLevel, levels, |posToId|, config.maxConnections)
      requires |d| == |posToId| && l > 0 && Descending(d, l, stops, current)
      ensures Descending(d, l - 1, stops', next)
    {
      next := Descend(d, layers[l], current);
      DescendKeepsLevel(layers[l], current, next, l, levels, config.maxConnections);
      DescentCons(d, layers, l - 1, stops, next);
      stops' := [next] + stops;
    }

    /** The greedy part: from the entry point down to just above `level`. */
    method DescendTo(d: seq<Float>, level: nat) returns (current: nat)
      requires GraphInv(layers, entryPoint, maxLevel, levels, |posToId|, config.maxConnections)
      requires entryPoint.Some? && |d| == |posToId|
      ensures current in levels && (levels[current] >= level || levels[current] == maxLevel)
      ensures current < |d| && (current != entryPoint.value ==> RawLess(d[current], d[entryPoint.value]))
      ensures DescendsTo(d, layers, entryPoint.value, maxLevel, level, current)
    {
      current := entryPoint.value;
      var l: nat := maxLevel;
      ghost var stops: seq<nat> := [current];
      while l > level
        invariant Descending(d, l, stops, current)
        invariant l < level ==> l == maxLevel
      {
        current, stops := DescendNext(d, l, current, stops);
        l := l - 1;
      }
      ReachedLevel(d, layers, level, l, stops, entryPoint.value, maxLevel, current);
    }

    /** The linking part: from min(level, maxLevel) down to the base layer. */
    method Link(d: seq<Float>, pos: nat, start: nat, level: nat) returns (ghost starts: seq<nat>)
      requires pos in levels && levels[pos] == level && pos < |posToId| == |vectors| == |d|
      requires forall p :: p in levels ==> p < |posToId|
      requires |layers| > level && |layers| > maxLevel && forall l :: 0 <= l <= level ==> |layers[l]| > pos
      requires start in levels - {pos} && (levels[start] >= level || levels[start] >= maxLevel)
      requires Halfway(layers, (if level <= maxLevel then level else maxLevel) + 1, levels, pos, config.maxConnections)
      modifies this`layers
      ensures Halfway(layers, 0, levels, pos, config.maxConnections)
      ensures |starts| == (if level <= maxLevel then level else maxLevel) + 1 && starts[|starts| - 1] == start
      ensures LinkedDown(dist, vectors, d, old(layers), pos, config, starts, 0, layers)
    {
      var current := start;
      var l: nat := (if level <= maxLevel then level else maxLevel) + 1;
      ghost var layers0, top := layers, l;
      starts := seq(top, i => start);
      while l > 0
        invariant l <= top == |starts|
        invariant |layers| > level && forall k :: 0 <= k <= level ==> |layers[k]| > pos
        invariant Linking(dist, vectors, d, pos, config, start, layers0, l, starts, current, layers)
        invariant CanStart(d, levels, pos, l, current)
        invariant Halfway(layers, l, levels, pos, config.maxConnections)
      {
        var linked;
        current, linked, starts :=
          LinkNext(dist, vectors, d, pos, config, start, layers0, l, starts, current, layers, levels);
        HalfwayStep(layers, l, levels, pos, config.maxConnections, linked[l - 1]);
        layers := linked;
        l := l - 1;
      }
    }

    // ---- Graph search ----

    /** What a graph search leaves behind: a base-layer search from where the greedy descent ends. */
    ghost predicate Searched(query: Vector, current: nat, found: seq<nat>, evaluated: set<nat>)
      requires Valid()
      reads this
    {
      var d := Distances(dist, vectors, Some(query));
      && entryPoint.Some? && layers != [] && current < |d| && current in levels
      && (current != entryPoint.value ==> RawLess(d[current], d[entryPoint.value]))
      && DescendsTo(d, layers, entryPoint.value, maxLevel, 0, current)
      && LayerResult(d, layers[0], current, config.efSearch, found, evaluated)
    }

    /** The names of the closest `topK`, without the negative ones. */
    ghost function Named(query: Vector, topK: nat, found: seq<nat>): seq<VectorResult>
      reads this
    {
      Answers(Distances(dist, vectors, Some(query)), posToId, Take(found, topK))
    }

    /** Descend to layer 1, search layer 0, name the closest `topK`, drop negative ids. */
    method HnswSearch(query: Vector, topK: nat)
      returns (results: seq<VectorResult>, ghost current: nat, ghost found: seq<nat>, ghost evaluated: set<nat>)
      requires Valid()
      ensures entryPoint.None? ==> results == []
      ensures entryPoint.Some? ==>
        Searched(query, current, found, evaluated) && results == Named(query, topK, found)
    {
      current, found, evaluated := 0, [], {};
      if entryPoint.None? {
        return [], 0, [], {};
      }
      var d := Distances(dist, vectors, Some(query));
      var start := DescendTo(d, 0);
      var nearest: seq<nat>;
      nearest, evaluated := SearchLayer(d, start, config.efSearch, layers[0]);
      current, found := start, nearest;
      results := Answers(d, posToId, Take(nearest, topK));
    }

    /** With a live entry point every answer is a live id at its latest distance, each once,
        sorted. */
    lemma LiveEntryAnswers(query: Vector, topK: nat, current: nat, found: seq<nat>, evaluated: set<nat>)
      requires Valid() && Searched(query, current, found, evaluated) && vectors[entryPoint.value].Some?
      ensures SoundAnswers(Model(), dist, query, topK, Named(query, topK, found))
    {
      var d := Distances(dist, vectors, Some(query));
      var closest := Take(found, topK);
      assert Live(d, current);
      RemovedIffEntryRemoved(d, layers[0], current, config.efSearch, found, evaluated);
      forall i | 0 <= i < |closest| ensures Live(d, closest[i]) {
        assert closest[i] in found;
      }
      AnswersSound(d, posToId, closest);
      var r := Answers(d, posToId, closest);
      forall i | 0 <= i < |r|
        ensures r[i].nodeId in Model() && r[i].distance == Num(dist(query, Model()[r[i].nodeId]))
      {
        var k :| 0 <= k < |closest| && r[i] == VectorResult(posToId[closest[k]], d[closest[k]]);
      }
      DistinctAnswers(d, posToId, idToPos, closest);
    }

    /** The filled index would answer a removed vector: its entry point was removed, has a name, and
        is not cut off, since the answer has room for all that a search looks for or can find. */
    ghost predicate AnswersRemoved(query: Vector, topK: nat)
      requires Valid()
      reads this
    {
      && entryPoint.Some? && vectors[entryPoint.value].None? && posToId[entryPoint.value] >= 0
      && var reach := Reach(Distances(dist, vectors, Some(query)), layers[0], entryPoint.value);
         Width(config.efSearch) <= topK || |reach| <= topK
    }

    /** A removed vector is answered exactly then: it sorts last. */
    lemma RemovedAnswerIff(query: Vector, topK: nat, current: nat, found: seq<nat>, evaluated: set<nat>)
      requires Valid() && Searched(query, current, found, evaluated)
      ensures HasRemoved(Named(query, topK, found)) <==> AnswersRemoved(query, topK)
    {
      var d, entry := Distances(dist, vectors, Some(query)), entryPoint.value;
      if vectors[entry].None? {
        assert current == entry;
        FoundSize(d, layers[0], entry, config.efSearch, found, evaluated);
        RemovedIsLast(d, layers[0], entry, config.efSearch, found, evaluated);
        LastAnswerIff(d, posToId, found, topK);
      } else {
        RemovedIffEntryRemoved(d, layers[0], current, config.efSearch, found, evaluated);
        var closest := Take(found, topK);
        forall k | 0 <= k < |closest| ensures Live(d, closest[k]) {
          assert closest[k] in found;
        }
        LiveAnswers(d, posToId, closest);
      }
    }

    /** The inserted ids with their latest embeddings; ids from before the threshold are not inserted. */
    ghost function Inserted(): map<int, Vector>
      requires Agree(idToPos, posToId, vectors)
      reads this
    {
      map id | id in idToPos && idToPos[id] in levels :: vectors[idToPos[id]].value
    }

    /** No list is full, everything inserted is live and has a name, and the search is wide enough. */
    ghost predicate Covered()
      requires Valid()
      reads this
    {
      && !HasFull(layers, config.maxConnections)
      && (forall p :: p in levels ==> vectors[p].Some? && posToId[p] >= 0)
      && |levels| <= Width(config.efSearch)
    }

    /** Then a search finds every inserted position, nearest first. */
    lemma CoveredSearchFindsAll(query: Vector, current: nat, found: seq<nat>, evaluated: set<nat>)
      requires Valid() && Searched(query, current, found, evaluated) && Covered()
      ensures AsSet(found) == levels.Keys
    {
      var d := Distances(dist, vectors, Some(query));
      JoinedIsReachable(d, layers[0], levels, config.maxConnections, current);
      assert |levels| == |levels.Keys|;
      WideSearchIsExhaustive(d, layers[0], current, config.efSearch, found, evaluated);
    }

    /** And its answer is the k nearest of the inserted ids: the approximate search is exact. */
    lemma CoveredSearchIsExact(query: Vector, topK: nat, current: nat, found: seq<nat>, evaluated: set<nat>)
      requires Valid() && Searched(query, current, found, evaluated) && Covered()
      ensures NearestIds(Inserted(), dist, query, topK, Named(query, topK, found))
    {
      var d := Distances(dist, vectors, Some(query));
      CoveredSearchFindsAll(query, current, found, evaluated);
      forall k | 0 <= k < |found| ensures InsertedAt(d, found[k]) {
        assert found[k] in AsSet(found);
      }
      assert forall id :: id in Inserted() ==> idToPos[id] in AsSet(found);
      ClosestIsNearest(query, topK, found);
    }

    /** The position of an inserted id, and its distance. */
    ghost predicate InsertedAt(d: seq<Float>, p: nat)
      requires Agree(idToPos, posToId, vectors)
      reads this
    {
      && p < |d| && p < |posToId| && posToId[p] >= 0
      && posToId[p] in Inserted() && idToPos[posToId[p]] == p
    }

    lemma ClosestIsNearest(query: Vector, topK: nat, found: seq<nat>)
      requires Valid()
      requires var d := Distances(dist, vectors, Some(query));
        && SortedByDistance(d, found) && Distinct(found)
        && (forall k :: 0 <= k < |found| ==> InsertedAt(d, found[k]))
        && forall id :: id in Inserted() ==> idToPos[id] in found
      ensures NearestIds(Inserted(), dist, query, topK, Named(query, topK, found))
    {
      var d, closest := Distances(dist, vectors, Some(query)), Take(found, topK);
      var r := Named(query, topK, found);
      AllNamed(d, posToId, closest);
      forall i | 0 <= i < |r| ensures r[i] == VectorResult(posToId[found[i]], d[found[i]]) && InsertedAt(d, found[i]) {
      }
      ClosestAreSound(query, topK, d, found, r);
      ClosestAreComplete(query, topK, d, found, r);
    }

    lemma ClosestAreSound(query: Vector, topK: nat, d: seq<Float>, found: seq<nat>, r: seq<VectorResult>)
      requires Valid() && d == Distances(dist, vectors, Some(query))
      requires SortedByDistance(d, found) && Distinct(found) && |r| <= |found| && |r| <= topK
      requires forall i :: 0 <= i < |r| ==>
        InsertedAt(d, found[i]) && r[i] == VectorResult(posToId[found[i]], d[found[i]])
      ensures SoundAnswers(Inserted(), dist, query, topK, r)
    {
      forall i, j | 0 <= i < j < |r|
        ensures r[i].nodeId != r[j].nodeId && TotalLeq(r[i].distance, r[j].distance)
      {
        assert InsertedAt(d, found[i]) && InsertedAt(d, found[j]);
      }
    }

    lemma ClosestAreComplete(query: Vector, topK: nat, d: seq<Float>, found: seq<nat>, r: seq<VectorResult>)
      requires Valid() && d == Distances(dist, vectors, Some(query))
      requires SortedByDistance(d, found) && |r| == if |found| <= topK then |found| else topK
      requires forall i :: 0 <= i < |r| ==>
        InsertedAt(d, found[i]) && r[i] == VectorResult(posToId[found[i]], d[found[i]])
      requires forall id :: id in Inserted() ==> idToPos[id] in found
      ensures forall id :: id in Inserted() && (forall i :: 0 <= i < |r| ==> r[i].nodeId != id) ==>
        |r| == topK && forall i :: 0 <= i < |r| ==> TotalLeq(r[i].distance, Num(dist(query, Inserted()[id])))
    {
      forall id | id in Inserted() && forall i :: 0 <= i < |r| ==> r[i].nodeId != id
        ensures |r| == topK
        ensures forall i :: 0 <= i < |r| ==> TotalLeq(r[i].distance, Num(dist(query, Inserted()[id])))
      {
        var k :| 0 <= k < |found| && found[k] == idToPos[id];
        assert posToId[found[k]] == id;
        assert d[found[k]] == Num(dist(query, Inserted()[id]));
      }
    }

    /** What holds of the answer of a graph search, or of a scan in place of an empty one. */
    lemma GraphAnswers(query: Vector, topK: nat, current: nat, found: seq<nat>, evaluated: set<nat>,
                       named: seq<VectorResult>, results: seq<VectorResult>)
      requires Valid() && Searched(query, current, found, evaluated) && named == Named(query, topK, found)
      requires if named != [] then results == named else NearestIds(Model(), dist, query, topK, results)
      ensures vectors[entryPoint.value].Some? ==> SoundAnswers(Model(), dist, query, topK, results)
      ensures HasRemoved(results) <==> AnswersRemoved(query, topK)
      ensures Covered() ==> NearestIds(Inserted(), dist, query, topK, results)
    {
      RemovedAnswerIff(query, topK, current, found, evaluated);
      if vectors[entryPoint.value].Some? {
        LiveEntryAnswers(query, topK, current, found, evaluated);
      }
      if Covered() {
        CoveredSearchIsExact(query, topK, current, found, evaluated);
        CoveredAnswersSome(query, topK, current, found, evaluated);
      }
    }

    lemma CoveredAnswersSome(query: Vector, topK: nat, current: nat, found: seq<nat>, evaluated: set<nat>)
      requires Valid() && Searched(query, current, found, evaluated) && Covered()
      ensures Named(query, topK, found) != [] || topK == 0
    {
      var d := Distances(dist, vectors, Some(query));
      CoveredSearchFindsAll(query, current, found, evaluated);
      forall k | 0 <= k < |found| ensures found[k] in levels {
        assert found[k] in AsSet(found);
      }
      AllNamed(d, posToId, Take(found, topK));
    }

    /** Brute force while the buffer is small, or when the graph has nothing to say. */
    method Search(query: Vector, topK: nat) returns (results: seq<VectorResult>)
      requires Valid()
      ensures |query| != config.dim || posToId == [] ==> results == []
      ensures |query| == config.dim && (|posToId| < config.hnswThreshold || entryPoint.None?) ==>
        NearestIds(Model(), dist, query, topK, results)
      ensures OverGraph(query) <==> |query| == config.dim && posToId != [] && |posToId| >= config.hnswThreshold
                                     && entryPoint.Some?
      ensures OverGraph(query) ==>
        exists current: nat, found: seq<nat>, evaluated: set<nat> :: Searched(query, current, found, evaluated)
          && var named := Named(query, topK, found);
             if named != [] then results == named else NearestIds(Model(), dist, query, topK, results)
      ensures entryPoint.Some? && vectors[entryPoint.value].Some? ==>
        SoundAnswers(Model(), dist, query, topK, results)
      ensures HasRemoved(results) <==> OverGraph(query) && AnswersRemoved(query, topK)
      ensures OverGraph(query) && Covered() ==>
        NearestIds(Inserted(), dist, query, topK, results)
    {
      if |query| != config.dim || posToId == [] {
        NothingIsNearest(query, topK);
        return [];
      }
      if |posToId| < config.hnswThreshold {
        results := FlatSearch(query, topK);
      } else {
        ghost var current, found, evaluated;
        results, current, found, evaluated := HnswSearch(query, topK);
        ghost var named := results;
        if results == [] {
          results := FlatSearch(query, topK);
        }
        if entryPoint.Some? {
          GraphAnswers(query, topK, current, found, evaluated, named, results);
        }
      }
    }

    /** The graph is asked. */
    predicate OverGraph(query: Vector)
      reads this
    {
      |query| == config.dim && posToId != [] && |posToId| >= config.hnswThreshold && entryPoint.Some?
    }

    lemma NothingIsNearest(query: Vector, topK: nat)
      requires Valid()
      ensures posToId == [] ==> NearestIds(Model(), dist, query, topK, [])
    {
    }

    // ---- Brute force ----

    method FlatSearch(query: Vector, topK: nat) returns (results: seq<VectorResult>)
      requires Valid()
      ensures NearestIds(Model(), dist, query, topK, results)
    {
      var d := Distances(dist, vectors, Some(query));
      var heap: seq<nat> := [];
      for pos := 0 to |posToId|
        invariant BoundedHeap(d, heap, topK, pos)
      {
        heap := Offer(d, heap, topK, pos);
      }
      var ids := posToId;
      results := seq(|heap|, i requires 0 <= i < |heap| && heap[i] < |ids| && heap[i] < |d| =>
        VectorResult(ids[heap[i]], d[heap[i]]));
      HeapIsNearest(query, topK, heap, results);
    }

    lemma HeapIsNearest(query: Vector, topK: nat, heap: seq<nat>, results: seq<VectorResult>)
      requires Valid()
      requires var d := Distances(dist, vectors, Some(query));
        && BoundedHeap(d, heap, topK, |vectors|)
        && |results| == |heap|
        && forall i :: 0 <= i < |heap| ==>
             heap[i] < |vectors| && results[i] == VectorResult(posToId[heap[i]], d[heap[i]])
      ensures NearestIds(Model(), dist, query, topK, results)
    {
      var d := Distances(dist, vectors, Some(query));
      if topK > 0 {
        forall i | 0 <= i < |heap| ensures Live(d, heap[i]) {
          assert heap[i] in heap;
        }
        forall i, j | 0 <= i < j < |heap|
          ensures results[i].nodeId != results[j].nodeId && TotalLeq(results[i].distance, results[j].distance)
        {
          assert Closer(d, heap[i], heap[j]);
        }
        forall id | id in Model() && forall i :: 0 <= i < |results| ==> results[i].nodeId != id
          ensures |results| == topK
          ensures forall i :: 0 <= i < |results| ==> TotalLeq(results[i].distance, Num(dist(query, Model()[id])))
        {
          var p := idToPos[id];
          assert p !in heap && p in LiveBelow(d, |vectors|);
          HeapEnds(d, heap);
          assert forall i :: 0 <= i < |heap| ==> heap[i] in heap;
        }
      }
    }
  }

  /** Such an answer is real: insert one vector past the threshold, remove it, and search. */
  method RemovedVectorIsAnswered(config: Config, dist: (Vector, Vector) -> real, id: int, v: Vector, query: Vector,
                                 topK: nat)
    returns (results: seq<VectorResult>)
    requires |v| == |query| == config.dim && config.hnswThreshold <= 1 && id >= 0 && topK > 0
    ensures HasRemoved(results)
  {
    var index := new ShardVectorIndex(config, dist);
    index.Upsert(id, v, 0);
    index.Remove(id);
    LonelyReach(Distances(dist, index.vectors, Some(query)), index.layers[0], 0);
    results := index.Search(query, topK);
  }

  lemma LonelyReach(d: seq<Float>, adj: Layer, entry: nat)
    requires Neighbours(adj, entry) == []
    ensures |Reach(d, adj, entry)| == 1
  {
    forall p: nat ensures p in Reach(d, adj, entry) <==> p == entry {
      ReachIsReachable(d, adj, entry, p);
      EntryIsReachable(d, adj, entry);
      if Reachable(d, adj, entry, p) {
        var w :| Walk(d, adj, entry, w) && w[|w| - 1] == p;
        assert |w| > 1 ==> w[1] in Neighbours(adj, w[0]);
      }
    }
    assert Reach(d, adj, entry) == {entry};
  }

  /** The heap after the positions below `n`: at most k, and never a farther one kept. */
  ghost predicate BoundedHeap(d: seq<Float>, heap: seq<nat>, k: nat, n: nat) {
    && (k == 0 ==> heap == [])
    && (k > 0 ==> Holds(d, heap, k, LiveBelow(d, n)))
    && (forall i :: 0 <= i < |heap| ==> heap[i] < n && heap[i] < |d|)
  }

  /** One step of the scan: skip a removed vector, push, or replace the farthest. */
  method Offer(d: seq<Float>, heap: seq<nat>, k: nat, pos: nat) returns (heap': seq<nat>)
    requires pos < |d| && BoundedHeap(d, heap, k, pos)
    ensures BoundedHeap(d, heap', k, pos + 1)
  {
    heap' := heap;
    assert LiveBelow(d, pos + 1) == LiveBelow(d, pos) + if Live(d, pos) then {pos} else {};
    if d[pos].NaN? {
      return;
    }
    if |heap| < k {
      ResultsGrow(d, heap, k, LiveBelow(d, pos), pos);
      heap' := Push(d, heap, pos);
    } else if heap != [] {
      if RawLess(d[pos], d[heap[|heap| - 1]]) {
        ResultsEvict(d, heap, k, LiveBelow(d, pos), pos);
        heap' := Push(d, heap, pos);
        heap' := heap'[..|heap'| - 1];
      } else {
        ResultsReject(d, heap, k, LiveBelow(d, pos), pos);
      }
    }
    forall i | 0 <= i < |heap'| ensures heap'[i] < pos + 1 {
      assert heap'[i] in heap';
    }
  }

  /** Ids and distances of the positions in order; negative ids are dropped. */
  function Answers(d: seq<Float>, names: seq<int>, closest: seq<nat>): seq<VectorResult> {
    if closest == [] then []
    else
      var p := closest[0];
      (if p < |d| && p < |names| && names[p] >= 0 then [VectorResult(names[p], d[p])] else [])
      + Answers(d, names, closest[1..])
  }

  lemma {:induction false} AnswersSound(d: seq<Float>, names: seq<int>, closest: seq<nat>)
    requires |d| == |names| && forall i :: 0 <= i < |closest| ==> closest[i] < |d|
    ensures var r := Answers(d, names, closest);
      && |r| <= |closest|
      && forall i :: 0 <= i < |r| ==>
           r[i].nodeId >= 0
           && exists k :: 0 <= k < |closest| && r[i] == VectorResult(names[closest[k]], d[closest[k]])
  {
    if closest == [] {
    } else {
      var rest := Answers(d, names, closest[1..]);
      var r := Answers(d, names, closest);
      AnswersSound(d, names, closest[1..]);
      forall i | 0 <= i < |r|
        ensures r[i].nodeId >= 0
        ensures exists k :: 0 <= k < |closest| && r[i] == VectorResult(names[closest[k]], d[closest[k]])
      {
        if |r| == |rest| || i > 0 {
          var j := if |r| == |rest| then i else i - 1;
          assert r[i] == rest[j];
          var k :| 0 <= k < |closest[1..]| && rest[j] == VectorResult(names[closest[1..][k]], d[closest[1..][k]]);
          assert closest[1..][k] == closest[k + 1];
        } else {
          assert r[i] == VectorResult(names[closest[0]], d[closest[0]]);
        }
      }
    }
  }

  /** Distinct live positions have distinct ids, and answers keep the order of distances. */
  lemma {:induction false} DistinctAnswers(d: seq<Float>, names: seq<int>, ids: map<int, nat>, closest: seq<nat>)
    requires |d| == |names| && Distinct(closest) && SortedByDistance(d, closest)
    requires forall i :: 0 <= i < |closest| ==>
      closest[i] < |d| && names[closest[i]] in ids && ids[names[closest[i]]] == closest[i]
    ensures var r := Answers(d, names, closest);
      forall i, j :: 0 <= i < j < |r| ==> r[i].nodeId != r[j].nodeId && TotalLeq(r[i].distance, r[j].distance)
  {
    if closest == [] {
    } else {
      var tail := closest[1..];
      var rest := Answers(d, names, tail);
      assert forall i :: 0 <= i < |tail| ==> tail[i] == closest[i + 1];
      DistinctAnswers(d, names, ids, tail);
      AnswersSound(d, names, tail);
      var p := closest[0];
      forall j | 0 <= j < |rest| ensures names[p] != rest[j].nodeId && TotalLeq(d[p], rest[j].distance) {
        var k :| 0 <= k < |tail| && rest[j] == VectorResult(names[tail[k]], d[tail[k]]);
        assert tail[k] == closest[k + 1];
      }
    }
  }

  ghost function LiveBelow(d: seq<Float>, n: nat): set<nat> {
    set p | 0 <= p < n && Live(d, p)
  }

  /** Ids of a map, each at most once and with its latest distance, sorted, at most k. */
  ghost predicate SoundAnswers(model: map<int, Vector>, dist: (Vector, Vector) -> real, query: Vector,
                               k: nat, results: seq<VectorResult>) {
    && |results| <= k
    && (forall i :: 0 <= i < |results| ==>
          results[i].nodeId in model && results[i].distance == Num(dist(query, model[results[i].nodeId])))
    && (forall i, j :: 0 <= i < j < |results| ==>
          results[i].nodeId != results[j].nodeId && TotalLeq(results[i].distance, results[j].distance))
  }

  /** The k nearest ids of a map: none is left out but for k others that are at least as close. */
  ghost predicate NearestIds(model: map<int, Vector>, dist: (Vector, Vector) -> real, query: Vector,
                             k: nat, results: seq<VectorResult>) {
    && SoundAnswers(model, dist, query, k, results)
    && (forall id :: id in model && (forall i :: 0 <= i < |results| ==> results[i].nodeId != id) ==>
          |results| == k
          && forall i :: 0 <= i < |results| ==> TotalLeq(results[i].distance, Num(dist(query, model[id]))))
  }

  /** In distances: the answer comes nearest first, and nothing left out is nearer. */
  lemma NearestMeans(model: map<int, Vector>, dist: (Vector, Vector) -> real, query: Vector, k: nat,
                     results: seq<VectorResult>, i: nat, j: nat, id: int)
    requires NearestIds(model, dist, query, k, results) && i < |results|
    ensures |results| <= k && results[i].nodeId in model
    ensures results[i].distance == Num(dist(query, model[results[i].nodeId]))
    ensures i < j < |results| ==>
      results[j].nodeId in model
      && dist(query, model[results[i].nodeId]) <= dist(query, model[results[j].nodeId])
    ensures id in model && (forall n :: 0 <= n < |results| ==> results[n].nodeId != id) ==>
      |results| == k && dist(query, model[results[i].nodeId]) <= dist(query, model[id])
  {
  }

  /** Only the distance from a removed vector is not a number. */
  ghost predicate HasRemoved(results: seq<VectorResult>) {
    exists i :: 0 <= i < |results| && results[i].distance.NaN?
  }

  /** What is not a number sorts last. */
  lemma NaNIsLast(d: seq<Float>, found: seq<nat>, e: nat)
    requires SortedByDistance(d, found) && e < |found| && d[found[e]].NaN?
    ensures d[found[|found| - 1]].NaN?
  {
    if e < |found| - 1 {
      assert TotalLeq(d[found[e]], d[found[|found| - 1]]);
    }
  }

  /** A removed entry is the last position found, and the only removed one. */
  lemma RemovedIsLast(d: seq<Float>, adj: Layer, entry: nat, ef: nat, found: seq<nat>, evaluated: set<nat>)
    requires entry < |d| && d[entry].NaN? && LayerResult(d, adj, entry, ef, found, evaluated)
    ensures found != [] && found[|found| - 1] == entry
    ensures forall k :: 0 <= k < |found| ==> found[k] < |d| && (d[found[k]].NaN? <==> k == |found| - 1)
  {
    forall k | 0 <= k < |found| && d[found[k]].NaN? ensures found[k] == entry {
      assert found[k] in found && found[k] in evaluated;
    }
    var e: nat :| e < |found| && found[e] == entry;
    NaNIsLast(d, found, e);
    forall k | 0 <= k < |found| && d[found[k]].NaN? ensures k == |found| - 1 {
      assert found[k] == found[|found| - 1];
    }
  }

  /** When every position has a name, the answers are the positions one by one. */
  lemma {:induction false} AllNamed(d: seq<Float>, names: seq<int>, closest: seq<nat>)
    requires |d| == |names| && forall k :: 0 <= k < |closest| ==> closest[k] < |d| && names[closest[k]] >= 0
    ensures var r := Answers(d, names, closest);
      |r| == |closest| && forall k :: 0 <= k < |r| ==> r[k] == VectorResult(names[closest[k]], d[closest[k]])
  {
    if closest == [] {
    } else {
      AllNamed(d, names, closest[1..]);
      assert forall k :: 0 < k < |closest| ==> closest[k] == closest[1..][k - 1];
    }
  }

  lemma {:induction false} AnswerNamed(d: seq<Float>, names: seq<int>, closest: seq<nat>, k: nat)
    requires k < |closest| && closest[k] < |d| == |names| && names[closest[k]] >= 0
    ensures VectorResult(names[closest[k]], d[closest[k]]) in Answers(d, names, closest)
  {
    if k == 0 {
      assert Answers(d, names, closest)[0] == VectorResult(names[closest[0]], d[closest[0]]);
    } else {
      AnswerNamed(d, names, closest[1..], k - 1);
    }
  }

  /** Answers are numbers when the positions behind them are live. */
  lemma LiveAnswers(d: seq<Float>, names: seq<int>, closest: seq<nat>)
    requires |d| == |names| && forall k :: 0 <= k < |closest| ==> Live(d, closest[k])
    ensures !HasRemoved(Answers(d, names, closest))
  {
    var r := Answers(d, names, closest);
    AnswersSound(d, names, closest);
    forall i | 0 <= i < |r| ensures r[i].distance.Num? {
      var k :| 0 <= k < |closest| && r[i] == VectorResult(names[closest[k]], d[closest[k]]);
    }
  }

  /** When the last position found is the one removed, its answer is there unless it was cut off
      or has no name. */
  lemma LastAnswerIff(d: seq<Float>, names: seq<int>, found: seq<nat>, topK: nat)
    requires |d| == |names| && found != [] && forall k :: 0 <= k < |found| ==> found[k] < |d|
    requires forall k :: 0 <= k < |found| ==> (d[found[k]].NaN? <==> k == |found| - 1)
    ensures HasRemoved(Answers(d, names, Take(found, topK))) <==> names[found[|found| - 1]] >= 0 && |found| <= topK
  {
    var closest, last := Take(found, topK), |found| - 1;
    var r := Answers(d, names, closest);
    AnswersSound(d, names, closest);
    if |found| <= topK && names[found[last]] >= 0 {
      AnswerNamed(d, names, closest, last);
      var i :| 0 <= i < |r| && r[i] == VectorResult(names[found[last]], d[found[last]]);
      assert r[i].distance.NaN?;
    }
    if i :| 0 <= i < |r| && r[i].distance.NaN? {
      var k :| 0 <= k < |closest| && r[i] == VectorResult(names[closest[k]], d[closest[k]]);
      assert k == last;
    }
  }
}
