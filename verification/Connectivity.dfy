/** What insertion makes of the layered graph, and why every inserted position stays reachable for
    as long as no neighbour list had to be cut.
 */
module Connectivity {
  import opened LayerSearch
  import opened HnswGraph
  import opened Wrappers

  // ---- Paths ----

  /** A path along edges, over removed positions too. */
  ghost predicate Path(adj: Layer, w: seq<nat>) {
    w != [] && forall i :: 0 < i < |w| ==> w[i] in Neighbours(adj, w[i - 1])
  }

  ghost predicate Leads(adj: Layer, p: nat, q: nat) {
    exists w: seq<nat> :: Path(adj, w) && w[0] == p && w[|w| - 1] == q
  }

  lemma LeadsHere(adj: Layer, p: nat)
    ensures Leads(adj, p, p)
  {
    assert Path(adj, [p]);
  }

  lemma LeadsAcross(adj: Layer, p: nat, q: nat)
    requires q in Neighbours(adj, p)
    ensures Leads(adj, p, q)
  {
    var w: seq<nat> := [p, q];
    assert Path(adj, w) && w[0] == p && w[|w| - 1] == q;
  }

  lemma LeadsVia(adj: Layer, p: nat, q: nat, r: nat)
    requires Leads(adj, p, q) && Leads(adj, q, r)
    ensures Leads(adj, p, r)
  {
    var v: seq<nat> :| Path(adj, v) && v[0] == p && v[|v| - 1] == q;
    var w: seq<nat> :| Path(adj, w) && w[0] == q && w[|w| - 1] == r;
    var both := v + w[1..];
    forall i | 0 < i < |both| ensures both[i] in Neighbours(adj, both[i - 1]) {
      if i >= |v| {
        assert both[i] == w[i - |v| + 1] && both[i - 1] == w[i - |v|];
      }
    }
    assert Path(adj, both) && both[0] == p && both[|both| - 1] == r;
  }

  /** Added edges take no path away. */
  lemma LeadsStill(adj: Layer, adj': Layer, p: nat, q: nat)
    requires forall x: nat, n: nat :: n in Neighbours(adj, x) ==> n in Neighbours(adj', x)
    requires Leads(adj, p, q)
    ensures Leads(adj', p, q)
  {
    var w: seq<nat> :| Path(adj, w) && w[0] == p && w[|w| - 1] == q;
    assert Path(adj', w);
  }

  // ---- One layer ----

  predicate AtLevel(levels: map<nat, nat>, l: nat, p: nat) {
    p in levels && levels[p] >= l
  }

  ghost predicate Symmetric(adj: Layer) {
    forall p: nat, n: nat :: n in Neighbours(adj, p) ==> p in Neighbours(adj, n)
  }

  /** Every edge is there both ways, and every position of the layer leads to every other. */
  ghost predicate Joined(adj: Layer, l: nat, levels: map<nat, nat>) {
    && Symmetric(adj)
    && forall p: nat, q: nat {:trigger Leads(adj, p, q)} ::
         AtLevel(levels, l, p) && AtLevel(levels, l, q) ==> Leads(adj, p, q)
  }

  /** Linking `pos` to these positions cuts a list. */
  ghost predicate CutsList(adj: Layer, selected: seq<nat>, maxConn: nat) {
    exists n :: n in selected && |Neighbours(adj, n)| >= 2 * maxConn
  }

  /** Without a cut, linking adds edges and nothing else. */
  lemma LinkingAddsEdges(dist: (Vector, Vector) -> real, vecs: seq<Option<Vector>>, adj: Layer, pos: nat,
                         selected: seq<nat>, maxConn: nat, adj': Layer, p: nat, n: nat)
    requires LinkedBothWays(dist, vecs, adj, pos, selected, maxConn, adj') && !CutsList(adj, selected, maxConn)
    requires Neighbours(adj, pos) == [] && pos !in selected && forall q :: q in selected ==> q < |adj'|
    ensures n in Neighbours(adj', p) <==>
      n in Neighbours(adj, p) || (p == pos && n in selected) || (n == pos && p in selected)
  {
    if p in selected {
      assert Extended(dist, vecs, p, pos, maxConn, Neighbours(adj, p), adj'[p]);
      assert Neighbours(adj', p) == Neighbours(adj, p) + [pos];
    }
  }

  lemma LinkKeepsSymmetry(dist: (Vector, Vector) -> real, vecs: seq<Option<Vector>>, adj: Layer, pos: nat,
                          selected: seq<nat>, maxConn: nat, adj': Layer)
    requires LinkedBothWays(dist, vecs, adj, pos, selected, maxConn, adj') && !CutsList(adj, selected, maxConn)
    requires Neighbours(adj, pos) == [] && pos !in selected && forall q :: q in selected ==> q < |adj'|
    requires Symmetric(adj)
    ensures Symmetric(adj')
  {
    forall p: nat, n: nat | n in Neighbours(adj', p) ensures p in Neighbours(adj', n) {
      LinkingAddsEdges(dist, vecs, adj, pos, selected, maxConn, adj', p, n);
      LinkingAddsEdges(dist, vecs, adj, pos, selected, maxConn, adj', n, p);
    }
  }

  /** A new position leads to the layer it is linked to, and the layer to it. */
  lemma NewPositionLeads(adj: Layer, adj': Layer, l: nat, levels: map<nat, nat>, pos: nat, hub: nat, p: nat)
    requires Joined(adj, l, levels) && AtLevel(levels, l, hub) && (p == pos || AtLevel(levels, l, p))
    requires forall x: nat, n: nat :: n in Neighbours(adj, x) ==> n in Neighbours(adj', x)
    requires hub in Neighbours(adj', pos) && pos in Neighbours(adj', hub)
    ensures Leads(adj', p, hub) && Leads(adj', hub, p)
  {
    if p == pos {
      LeadsAcross(adj', pos, hub);
      LeadsAcross(adj', hub, pos);
    } else {
      LeadsStill(adj, adj', p, hub);
      LeadsStill(adj, adj', hub, p);
    }
  }

  lemma LinkKeepsJoined(dist: (Vector, Vector) -> real, vecs: seq<Option<Vector>>, adj: Layer, pos: nat,
                        selected: seq<nat>, maxConn: nat, adj': Layer, l: nat, levels: map<nat, nat>, level: nat)
    requires LinkedBothWays(dist, vecs, adj, pos, selected, maxConn, adj') && !CutsList(adj, selected, maxConn)
    requires Joined(adj, l, levels) && pos !in levels && Neighbours(adj, pos) == []
    requires selected != [] && forall n :: n in selected ==> AtLevel(levels, l, n) && n < |adj'|
    ensures Joined(adj', l, levels[pos := level])
  {
    LinkKeepsSymmetry(dist, vecs, adj, pos, selected, maxConn, adj');
    forall p: nat, n: nat | n in Neighbours(adj, p) ensures n in Neighbours(adj', p) {
      LinkingAddsEdges(dist, vecs, adj, pos, selected, maxConn, adj', p, n);
    }
    var hub := selected[0];
    assert hub in selected;
    LinkingAddsEdges(dist, vecs, adj, pos, selected, maxConn, adj', pos, hub);
    LinkingAddsEdges(dist, vecs, adj, pos, selected, maxConn, adj', hub, pos);
    forall p: nat, q: nat | AtLevel(levels[pos := level], l, p) && AtLevel(levels[pos := level], l, q)
      ensures Leads(adj', p, q)
    {
      NewPositionLeads(adj, adj', l, levels, pos, hub, p);
      NewPositionLeads(adj, adj', l, levels, pos, hub, q);
      LeadsVia(adj', p, hub, q);
    }
  }

  /** A layer that the new position does not join. */
  lemma UntouchedStaysJoined(adj: Layer, adj': Layer, l: nat, levels: map<nat, nat>, pos: nat, level: nat)
    requires Joined(adj, l, levels) && SameLists(adj', adj) && level < l && pos !in levels
    ensures Joined(adj', l, levels[pos := level])
  {
    forall p: nat, n: nat | n in Neighbours(adj', p) ensures p in Neighbours(adj', n) {
      assert n in Neighbours(adj, p);
      assert p in Neighbours(adj, n);
    }
    forall p: nat, q: nat | AtLevel(levels[pos := level], l, p) && AtLevel(levels[pos := level], l, q)
      ensures Leads(adj', p, q)
    {
      assert AtLevel(levels, l, p) && AtLevel(levels, l, q);
      LeadsStill(adj, adj', p, q);
    }
  }

  /** A layer that only the new position is in. */
  lemma AloneIsJoined(adj': Layer, l: nat, levels: map<nat, nat>, pos: nat, level: nat)
    requires forall p: nat :: Neighbours(adj', p) == []
    requires forall p :: p in levels ==> levels[p] < l
    ensures Joined(adj', l, levels[pos := level])
  {
    LeadsHere(adj', pos);
  }

  // ---- The layered graph ----

  function LayerAt(layers: seq<Layer>, l: nat): Layer {
    if l < |layers| then layers[l] else []
  }

  /** The layers that a new position of this level is linked in. */
  predicate LinksIn(entryPoint: Option<nat>, maxLevel: nat, level: nat, l: nat) {
    entryPoint.Some? && l <= level && l <= maxLevel
  }

  /** What an insertion makes of the layers. */
  ghost predicate Grown(dist: (Vector, Vector) -> real, vecs: seq<Option<Vector>>, layers: seq<Layer>,
                        entryPoint: Option<nat>, maxLevel: nat, pos: nat, level: nat, maxConn: nat,
                        layers': seq<Layer>) {
    && |layers'| == (if |layers| <= level then level + 1 else |layers|)
    && forall l :: 0 <= l < |layers'| ==>
         if LinksIn(entryPoint, maxLevel, level, l)
         then LinkedBothWays(dist, vecs, LayerAt(layers, l), pos, Neighbours(layers'[l], pos), maxConn, layers'[l])
         else SameLists(layers'[l], LayerAt(layers, l))
  }

  /** The insertion cut a list. */
  ghost predicate Cut(layers: seq<Layer>, entryPoint: Option<nat>, maxLevel: nat, pos: nat, level: nat,
                      maxConn: nat, layers': seq<Layer>) {
    exists l: nat :: l < |layers'| && LinksIn(entryPoint, maxLevel, level, l)
      && CutsList(LayerAt(layers, l), Neighbours(layers'[l], pos), maxConn)
  }

  ghost predicate GraphJoined(layers: seq<Layer>, levels: map<nat, nat>) {
    forall l :: 0 <= l < |layers| ==> Joined(layers[l], l, levels)
  }

  ghost predicate Full(layers: seq<Layer>, l: nat, p: nat, maxConn: nat) {
    l < |layers| && |Neighbours(layers[l], p)| >= 2 * maxConn
  }

  /** Some list has as many entries as it may. */
  ghost predicate HasFull(layers: seq<Layer>, maxConn: nat) {
    exists l: nat, p: nat :: Full(layers, l, p, maxConn)
  }

  lemma FreshHasNoList(adj: Layer, l: nat, levels: map<nat, nat>, maxConn: nat, p: nat)
    requires LayerInv(adj, l, levels, maxConn)
    ensures !AtLevel(levels, l, p) ==> Neighbours(adj, p) == []
    ensures forall n :: n in Neighbours(adj, p) ==> n != p && AtLevel(levels, l, n)
  {
    if p < |adj| {
      assert ListInv(adj[p], p, l, levels, maxConn);
    }
  }

  lemma LayerGrowthKeepsJoined(dist: (Vector, Vector) -> real, vecs: seq<Option<Vector>>, layers: seq<Layer>,
                               entryPoint: Option<nat>, maxLevel: nat, levels: map<nat, nat>, pos: nat, level: nat,
                               maxConn: nat, layers': seq<Layer>, l: nat)
    requires GraphInv(layers, entryPoint, maxLevel, levels, pos, maxConn) && GraphJoined(layers, levels)
    requires Grown(dist, vecs, layers, entryPoint, maxLevel, pos, level, maxConn, layers') && l < |layers'|
    requires LayerInv(layers'[l], l, levels[pos := level], maxConn)
    requires !Cut(layers, entryPoint, maxLevel, pos, level, maxConn, layers')
    requires LinksIn(entryPoint, maxLevel, level, l) ==> Neighbours(layers'[l], pos) != []
    ensures Joined(layers'[l], l, levels[pos := level])
  {
    assert pos !in levels;
    if LinksIn(entryPoint, maxLevel, level, l) {
      var selected := Neighbours(layers'[l], pos);
      FreshHasNoList(layers[l], l, levels, maxConn, pos);
      FreshHasNoList(layers'[l], l, levels[pos := level], maxConn, pos);
      LinkKeepsJoined(dist, vecs, layers[l], pos, selected, maxConn, layers'[l], l, levels, level);
    } else if l > level {
      UntouchedStaysJoined(layers[l], layers'[l], l, levels, pos, level);
    } else {
      forall p: nat ensures Neighbours(layers'[l], p) == [] {
        assert Neighbours(layers'[l], p) == Neighbours(LayerAt(layers, l), p);
        if l < |layers| {
          FreshHasNoList(layers[l], l, levels, maxConn, p);
        }
      }
      AloneIsJoined(layers'[l], l, levels, pos, level);
    }
  }

  /** An insertion that cuts no list keeps every layer joined. */
  lemma GrowthKeepsJoined(dist: (Vector, Vector) -> real, vecs: seq<Option<Vector>>, layers: seq<Layer>,
                          entryPoint: Option<nat>, maxLevel: nat, levels: map<nat, nat>, pos: nat, level: nat,
                          maxConn: nat, layers': seq<Layer>)
    requires GraphInv(layers, entryPoint, maxLevel, levels, pos, maxConn) && GraphJoined(layers, levels)
    requires Grown(dist, vecs, layers, entryPoint, maxLevel, pos, level, maxConn, layers')
    requires forall l :: 0 <= l < |layers'| ==> LayerInv(layers'[l], l, levels[pos := level], maxConn)
    requires !Cut(layers, entryPoint, maxLevel, pos, level, maxConn, layers')
    requires forall l :: 0 <= l < |layers'| && LinksIn(entryPoint, maxLevel, level, l) ==>
      Neighbours(layers'[l], pos) != []
    ensures GraphJoined(layers', levels[pos := level])
  {
    forall l | 0 <= l < |layers'| ensures Joined(layers'[l], l, levels[pos := level]) {
      LayerGrowthKeepsJoined(dist, vecs, layers, entryPoint, maxLevel, levels, pos, level, maxConn, layers', l);
    }
  }

  /** A full list stays full. */
  lemma FullStaysFull(dist: (Vector, Vector) -> real, vecs: seq<Option<Vector>>, layers: seq<Layer>,
                      entryPoint: Option<nat>, maxLevel: nat, levels: map<nat, nat>, pos: nat, level: nat,
                      maxConn: nat, layers': seq<Layer>, l: nat, p: nat)
    requires GraphInv(layers, entryPoint, maxLevel, levels, pos, maxConn)
    requires Grown(dist, vecs, layers, entryPoint, maxLevel, pos, level, maxConn, layers')
    requires Full(layers, l, p, maxConn)
    ensures Full(layers', l, p, maxConn)
  {
    assert pos !in levels;
    FreshHasNoList(layers[l], l, levels, maxConn, pos);
    FreshHasNoList(layers[l], l, levels, maxConn, p);
    if LinksIn(entryPoint, maxLevel, level, l) {
      assert LinkedBothWays(dist, vecs, layers[l], pos, Neighbours(layers'[l], pos), maxConn, layers'[l]);
      if p in Neighbours(layers'[l], pos) && p < |layers'[l]| {
        assert Extended(dist, vecs, p, pos, maxConn, Neighbours(layers[l], p), layers'[l][p]);
      }
    } else {
      assert Neighbours(layers'[l], p) == Neighbours(layers[l], p);
    }
  }

  /** Whoever finds no full list knows that none was ever cut. */
  lemma CutLeavesFull(dist: (Vector, Vector) -> real, vecs: seq<Option<Vector>>, layers: seq<Layer>,
                      entryPoint: Option<nat>, maxLevel: nat, levels: map<nat, nat>, pos: nat, level: nat,
                      maxConn: nat, layers': seq<Layer>)
    requires GraphInv(layers, entryPoint, maxLevel, levels, pos, maxConn)
    requires Grown(dist, vecs, layers, entryPoint, maxLevel, pos, level, maxConn, layers')
    requires HasFull(layers, maxConn) || Cut(layers, entryPoint, maxLevel, pos, level, maxConn, layers')
    ensures HasFull(layers', maxConn)
  {
    var l: nat, p: nat;
    if HasFull(layers, maxConn) {
      l, p :| Full(layers, l, p, maxConn);
    } else {
      l :| l < |layers'| && LinksIn(entryPoint, maxLevel, level, l)
           && CutsList(LayerAt(layers, l), Neighbours(layers'[l], pos), maxConn);
      p :| p in Neighbours(layers'[l], pos) && |Neighbours(LayerAt(layers, l), p)| >= 2 * maxConn;
    }
    FullStaysFull(dist, vecs, layers, entryPoint, maxLevel, levels, pos, level, maxConn, layers', l, p);
  }

  // ---- What a search can find ----

  /** In a joined layer without removed positions a search can find everything. */
  lemma JoinedIsReachable(d: seq<Float>, adj: Layer, levels: map<nat, nat>, maxConn: nat, entry: nat)
    requires LayerInv(adj, 0, levels, maxConn) && Joined(adj, 0, levels) && entry in levels
    requires forall p :: p in levels ==> Live(d, p)
    ensures Reach(d, adj, entry) == levels.Keys
  {
    forall p: nat ensures p in Reach(d, adj, entry) <==> p in levels {
      ReachIsReachable(d, adj, entry, p);
      if Reachable(d, adj, entry, p) {
        var w :| Walk(d, adj, entry, w) && w[|w| - 1] == p;
        WalkLevels(d, adj, entry, 0, levels, maxConn, w);
      }
      if p in levels {
        PathIsWalk(d, adj, levels, maxConn, entry, p);
      }
    }
  }

  lemma PathIsWalk(d: seq<Float>, adj: Layer, levels: map<nat, nat>, maxConn: nat, entry: nat, p: nat)
    requires LayerInv(adj, 0, levels, maxConn) && Joined(adj, 0, levels) && entry in levels && p in levels
    requires forall q :: q in levels ==> Live(d, q)
    ensures Reachable(d, adj, entry, p)
  {
    assert Leads(adj, entry, p);
    var w: seq<nat> :| Path(adj, w) && w[0] == entry && w[|w| - 1] == p;
    forall i | 0 < i < |w| ensures Live(d, w[i]) {
      FreshHasNoList(adj, 0, levels, maxConn, w[i - 1]);
    }
    assert Walk(d, adj, entry, w);
  }
}
