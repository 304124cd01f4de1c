/** The node side of a shard: the node table, the cache in front of it, the Merkle tree beside
    it, and the counters. The leaf hash and the value score of a node
    are parameters; a table scan comes in any order.
 */
module ShardStore {
  import opened MerkleTree
  import opened IncrementalMerkle
  import opened NodeCache
  import opened Wrappers
  import E = EdgeIndex

  // ---- The leaves ----

  /** Every leaf is the leaf of a stored node. */
  ghost predicate LeavesSound(leaves: seq<Leaf>, nodes: Table, leafOf: Node -> Digest) {
    forall l :: l in leaves ==> l.id in nodes && l.hash == leafOf(nodes[l.id])
  }

  /** Every stored node has its leaf. */
  ghost predicate LeavesComplete(leaves: seq<Leaf>, nodes: Table, leafOf: Node -> Digest) {
    forall id :: id in nodes ==> Leaf(id, leafOf(nodes[id])) in leaves
  }

  /** The leaves in id order are a function of the table: how it was reached leaves no trace. */
  lemma LeavesAreCanonical(a: seq<Leaf>, b: seq<Leaf>, nodes: Table, leafOf: Node -> Digest)
    requires Ascending(a) && LeavesSound(a, nodes, leafOf) && LeavesComplete(a, nodes, leafOf)
    requires Ascending(b) && LeavesSound(b, nodes, leafOf) && LeavesComplete(b, nodes, leafOf)
    ensures a == b
  {
    forall l ensures l in a <==> l in b {
      assert l in a ==> l == Leaf(l.id, leafOf(nodes[l.id]));
      assert l in b ==> l == Leaf(l.id, leafOf(nodes[l.id]));
    }
    EntriesDetermineList(a, b);
  }

  lemma PutKeepsSound(leaves: seq<Leaf>, nodes: Table, n: Node, leafOf: Node -> Digest)
    requires Ascending(leaves) && LeavesSound(leaves, nodes, leafOf)
    ensures LeavesSound(Put(leaves, Leaf(n.id, leafOf(n))), nodes[n.id := n], leafOf)
  {
    forall l | l in Put(leaves, Leaf(n.id, leafOf(n)))
      ensures l.id in nodes[n.id := n] && l.hash == leafOf(nodes[n.id := n][l.id])
    {
      PutEntries(leaves, Leaf(n.id, leafOf(n)), l);
    }
  }

  lemma PutKeepsComplete(leaves: seq<Leaf>, nodes: Table, n: Node, leafOf: Node -> Digest)
    requires Ascending(leaves) && LeavesComplete(leaves, nodes, leafOf)
    ensures LeavesComplete(Put(leaves, Leaf(n.id, leafOf(n))), nodes[n.id := n], leafOf)
  {
    var nodes' := nodes[n.id := n];
    forall id | id in nodes' ensures Leaf(id, leafOf(nodes'[id])) in Put(leaves, Leaf(n.id, leafOf(n))) {
      PutEntries(leaves, Leaf(n.id, leafOf(n)), Leaf(id, leafOf(nodes'[id])));
    }
  }

  lemma DeleteKeepsSound(leaves: seq<Leaf>, nodes: Table, id: int, leafOf: Node -> Digest)
    requires Ascending(leaves) && LeavesSound(leaves, nodes, leafOf)
    ensures LeavesSound(Delete(leaves, id), nodes - {id}, leafOf)
  {
    forall l | l in Delete(leaves, id) ensures l.id in nodes - {id} && l.hash == leafOf((nodes - {id})[l.id]) {
      DeleteEntries(leaves, id, l);
    }
  }

  lemma DeleteKeepsComplete(leaves: seq<Leaf>, nodes: Table, id: int, leafOf: Node -> Digest)
    requires Ascending(leaves) && LeavesComplete(leaves, nodes, leafOf)
    ensures LeavesComplete(Delete(leaves, id), nodes - {id}, leafOf)
  {
    forall k | k in nodes - {id} ensures Leaf(k, leafOf((nodes - {id})[k])) in Delete(leaves, id) {
      DeleteEntries(leaves, id, Leaf(k, leafOf(nodes[k])));
    }
  }

  /** An id without a leaf: nothing to delete. */
  lemma {:induction false} DeleteAbsent(leaves: seq<Leaf>, id: int)
    requires !Has(leaves, id)
    ensures Delete(leaves, id) == leaves
  {
    if leaves == [] {
    } else {
      assert leaves[0] in leaves;
      assert forall l :: l in leaves[1..] ==> l in leaves;
      DeleteAbsent(leaves[1..], id);
    }
  }

  // ---- Scans and answers ----

  /** A scan lists every stored node once, in whatever order. */
  ghost predicate IsScan(scan: seq<Node>, nodes: Table) {
    && (forall n :: n in scan <==> Agrees(n, nodes))
    && (forall i, j :: 0 <= i < j < |scan| ==> scan[i].id != scan[j].id)
  }

  /** What the table alone answers to a list of ids. */
  function TableAnswers(nodes: Table, ids: seq<int>): seq<Node> {
    if ids == [] then []
    else
      var rest, id := TableAnswers(nodes, ids[..|ids| - 1]), ids[|ids| - 1];
      if id in nodes then rest + [nodes[id]] else rest
  }

  lemma TableAnswersSnoc(nodes: Table, ids: seq<int>, id: int)
    ensures multiset(TableAnswers(nodes, ids + [id]))
         == multiset(TableAnswers(nodes, ids)) + if id in nodes then multiset{nodes[id]} else multiset{}
  {
    assert (ids + [id])[..|ids|] == ids;
  }

  /** A node is answered as often as its id is asked for. */
  lemma {:induction false} AnswersCount(nodes: Table, ids: seq<int>, n: Node)
    requires forall id :: id in nodes ==> nodes[id].id == id
    ensures multiset(TableAnswers(nodes, ids))[n] ==
      if n.id in nodes && nodes[n.id] == n then multiset(ids)[n.id] else 0
  {
    if ids == [] {
    } else {
      var init, last := ids[..|ids| - 1], ids[|ids| - 1];
      AnswersCount(nodes, init, n);
      assert ids == init + [last];
    }
  }

  /** The answers so far: nodes already found, and what the table holds for the rest. */
  ghost function Answered(found: seq<Node>, nodes: Table, missing: seq<int>): multiset<Node> {
    multiset(found) + multiset(TableAnswers(nodes, missing))
  }

  lemma AnsweredSnoc(found: seq<Node>, nodes: Table, missing: seq<int>, ids: seq<int>, id: int)
    requires Answered(found, nodes, missing) == multiset(TableAnswers(nodes, ids))
    ensures id in nodes ==> Answered(found + [nodes[id]], nodes, missing) == multiset(TableAnswers(nodes, ids + [id]))
    ensures Answered(found, nodes, missing + [id]) == multiset(TableAnswers(nodes, ids + [id]))
  {
    TableAnswersSnoc(nodes, ids, id);
    TableAnswersSnoc(nodes, missing, id);
  }

  function ToUnit(x: real): real {
    if x < 0.0 then 0.0 else if x > 1.0 then 1.0 else x
  }

  function Confirmed(n: Node, confidence: real, block: int): Node {
    n.(confidence := ToUnit(confidence), lastReferencedBlock := block, referenceCount := n.referenceCount + 1)
  }

  ghost function Kept(nodes: Table, valueScore: (Node, int) -> real, minScore: real, block: int): Table {
    map id | id in nodes && valueScore(nodes[id], block) >= minScore :: nodes[id]
  }

  lemma KeptMeans(nodes: Table, valueScore: (Node, int) -> real, minScore: real, block: int, id: int)
    ensures id in Kept(nodes, valueScore, minScore, block) <==>
      id in nodes && !(valueScore(nodes[id], block) < minScore)
    ensures id in Kept(nodes, valueScore, minScore, block) ==>
      Kept(nodes, valueScore, minScore, block)[id] == nodes[id]
  {
  }

  lemma RemovalCounts(nodes: Table, id: int)
    requires id in nodes
    ensures |nodes - {id}| == |nodes| - 1
  {
    assert (nodes - {id}).Keys == nodes.Keys - {id};
  }

  lemma InsertionCounts(nodes: Table, n: Node)
    ensures |nodes[n.id := n]| == if n.id in nodes then |nodes| else |nodes| + 1
  {
    assert nodes[n.id := n].Keys == nodes.Keys + {n.id};
  }

  function IdsOf(batch: seq<Node>): set<int> {
    set n | n in batch :: n.id
  }

  /** The table with the batch taken out node by node. */
  ghost function Remaining(nodes: Table, batch: seq<Node>): Table {
    if batch == [] then nodes else Remaining(nodes, batch[..|batch| - 1]) - {batch[|batch| - 1].id}
  }

  lemma IdsOfSnoc(init: seq<Node>, last: Node)
    ensures IdsOf(init + [last]) == IdsOf(init) + {last.id}
  {
    assert forall n :: n in init + [last] <==> n in init || n == last;
  }

  lemma NewId(init: seq<Node>, last: Node)
    requires forall i :: 0 <= i < |init| ==> init[i].id != last.id
    ensures last.id !in IdsOf(init)
  {
  }

  lemma RemoveOneMore(nodes: Table, ids: set<int>, id: int)
    ensures (nodes - ids) - {id} == nodes - (ids + {id})
  {
  }

  lemma {:induction false} RemainingIsRest(nodes: Table, batch: seq<Node>)
    ensures Remaining(nodes, batch) == nodes - IdsOf(batch)
  {
    if batch == [] {
      assert nodes - IdsOf([]) == nodes;
    } else {
      var init, last := batch[..|batch| - 1], batch[|batch| - 1];
      RemainingIsRest(nodes, init);
      IdsOfSnoc(init, last);
      assert init + [last] == batch;
      RemoveOneMore(nodes, IdsOf(init), last.id);
    }
  }

  lemma {:induction false} RemainingCounts(nodes: Table, batch: seq<Node>)
    requires forall n :: n in batch ==> n.id in nodes
    requires forall i, j :: 0 <= i < j < |batch| ==> batch[i].id != batch[j].id
    ensures |Remaining(nodes, batch)| == |nodes| - |batch|
  {
    if batch == [] {
    } else {
      var init, last := batch[..|batch| - 1], batch[|batch| - 1];
      RemainingCounts(nodes, init);
      RemainingIsRest(nodes, init);
      NewId(init, last);
      RemovalCounts(Remaining(nodes, init), last.id);
    }
  }

  lemma KeptIsRest(nodes: Table, batch: seq<Node>, valueScore: (Node, int) -> real, minScore: real, block: int)
    requires forall id :: id in nodes ==> nodes[id].id == id
    requires forall n :: n in batch <==> Agrees(n, nodes) && valueScore(n, block) < minScore
    ensures nodes - IdsOf(batch) == Kept(nodes, valueScore, minScore, block)
  {
    forall id | id in nodes ensures id in IdsOf(batch) <==> valueScore(nodes[id], block) < minScore {
      assert Agrees(nodes[id], nodes);
      assert nodes[id] in batch <==> valueScore(nodes[id], block) < minScore;
    }
  }

  function Drops(batch: seq<Node>): seq<Touch> {
    if batch == [] then [] else Drops(batch[..|batch| - 1]) + [Dropped(batch[|batch| - 1].id)]
  }

  // ---- The store ----

  class ShardStore {
    const leafOf: Node -> Digest
    const valueScore: (Node, int) -> real
    const capacity: nat
    const merkle: IncrementalMerkle
    const edgeStore: E.EdgeStore
    var nodes: Table
    var cache: seq<Node>
    var nodeCount: int
    var cacheHits: nat
    var cacheMisses: nat
    /** Puts of an id that was already stored. */
    ghost var overwrites: nat
    /** Every use and deletion of a node so far. */
    ghost var touches: seq<Touch>

    ghost predicate Valid()
      reads this, merkle
    {
      && merkle.Valid() && CacheInv(nodes)
      && (forall id :: id in nodes ==> nodes[id].id == id)
      && LeavesSound(merkle.leaves, nodes, leafOf)
      && nodeCount == |nodes| + overwrites
    }

    /** The cache agrees with the table, and holds what its uses say. */
    ghost predicate CacheInv(nodes: Table)
      reads this
    {
      capacity > 0 && CacheOk(cache, nodes, capacity) && Reflects(cache, touches, capacity)
    }

    /** The tree mirrors the table; a store opened on an existing table starts without. */
    ghost predicate Mirrored()
      reads this, merkle
    {
      LeavesComplete(merkle.leaves, nodes, leafOf)
    }

    constructor Open(nodes: Table, edgeStore: E.EdgeStore, h: Hash, leafOf: Node -> Digest,
                     valueScore: (Node, int) -> real, cacheCapacity: nat)
      requires forall id :: id in nodes ==> nodes[id].id == id
      ensures Valid() && this.nodes == nodes && this.edgeStore == edgeStore
      ensures this.leafOf == leafOf && this.valueScore == valueScore && merkle.h == h
      ensures capacity == if cacheCapacity == 0 then 100000 else cacheCapacity
      ensures fresh(merkle) && merkle.leaves == [] && (nodes == map[] ==> Mirrored())
      ensures nodeCount == |nodes| && overwrites == 0 && cacheHits == 0 && cacheMisses == 0
      ensures cache == [] && touches == []
    {
      this.nodes, this.edgeStore, this.leafOf, this.valueScore := nodes, edgeStore, leafOf, valueScore;
      capacity := if cacheCapacity == 0 then 100000 else cacheCapacity;
      merkle := new IncrementalMerkle(h);
      cache, nodeCount, cacheHits, cacheMisses, overwrites, touches := [], |nodes|, 0, 0, 0, [];
    }

    /** The node is the most recent entry. */
    method Use(n: Node, ghost kept: Table)
      requires CacheInv(nodes) && SameElsewhere(n.id, nodes, kept) && Agrees(n, kept)
      modifies `cache, `touches
      ensures CacheInv(kept)
      ensures cache == Promote(old(cache), n, capacity) && touches == old(touches) + [Used(n.id)]
    {
      PromoteIsOk(cache, nodes, kept, n, capacity);
      UseIsReflected(cache, touches, n, capacity);
      cache := Promote(cache, n, capacity);
      touches := touches + [Used(n.id)];
    }

    /** Brings a node into the cache and the tree. */
    method Remember(n: Node)
      requires merkle.Valid() && CacheInv(nodes)
      requires LeavesSound(merkle.leaves, nodes, leafOf)
      modifies `cache, `touches, merkle
      ensures merkle.Valid() && CacheInv(nodes[n.id := n])
      ensures cache == Promote(old(cache), n, capacity) && touches == old(touches) + [Used(n.id)]
      ensures LeavesSound(merkle.leaves, nodes[n.id := n], leafOf)
      ensures old(Mirrored()) ==> LeavesComplete(merkle.leaves, nodes[n.id := n], leafOf)
    {
      Use(n, nodes[n.id := n]);
      PutKeepsSound(merkle.leaves, nodes, n, leafOf);
      if Mirrored() {
        PutKeepsComplete(merkle.leaves, nodes, n, leafOf);
      }
      merkle.Insert(n.id, leafOf(n));
    }

    method PutNode(n: Node)
      requires Valid()
      modifies this, merkle
      ensures Valid() && nodes == old(nodes)[n.id := n] && (old(Mirrored()) ==> Mirrored())
      ensures overwrites == old(overwrites) + if n.id in old(nodes) then 1 else 0
      ensures cache == Promote(old(cache), n, capacity) && touches == old(touches) + [Used(n.id)]
      ensures cacheHits == old(cacheHits) && cacheMisses == old(cacheMisses)
    {
      InsertionCounts(nodes, n);
      Remember(n);
      overwrites := overwrites + if n.id in nodes then 1 else 0;
      nodes := nodes[n.id := n];
      nodeCount := nodeCount + 1;
    }

    /** A cache hit moves the node to the front. */
    method CacheGet(id: int) returns (found: Option<Node>)
      requires CacheInv(nodes)
      modifies `cache, `touches
      ensures CacheInv(nodes)
      ensures found == old(Cached(cache, id)) && (found.Some? <==> old(Retained(touches, id, capacity)))
      ensures found.Some? ==> found == Fetch(nodes, id)
      ensures cache == if found.Some? then Promote(old(cache), found.value, capacity) else old(cache)
      ensures touches == if found.Some? then old(touches) + [Used(id)] else old(touches)
    {
      CachedIsStored(cache, nodes, id);
      CachedHasId(cache, id);
      found := Cached(cache, id);
      if found.Some? {
        Use(found.value, nodes);
      }
    }

    /** A miss brings the stored node to the front. */
    method Load(id: int) returns (found: Option<Node>)
      requires CacheInv(nodes) && forall id :: id in nodes ==> nodes[id].id == id
      modifies `cache, `touches
      ensures CacheInv(nodes) && found == Fetch(nodes, id)
      ensures cache == if found.Some? then Promote(old(cache), found.value, capacity) else old(cache)
      ensures touches == if found.Some? then old(touches) + [Used(id)] else old(touches)
    {
      found := Fetch(nodes, id);
      if found.Some? {
        Use(found.value, nodes);
      }
    }

    /** The cache never changes an answer. A read is a hit exactly when the id is retained, and a
        node just read is the most recent entry. */
    method GetNode(id: int) returns (found: Option<Node>)
      requires Valid()
      modifies `cache, `touches, `cacheHits, `cacheMisses
      ensures Valid() && found == Fetch(nodes, id)
      ensures if id in nodes then found == Some(nodes[id]) else found == None
      ensures cacheHits == old(cacheHits) + if old(Retained(touches, id, capacity)) then 1 else 0
      ensures cacheMisses == old(cacheMisses) + if old(Retained(touches, id, capacity)) then 0 else 1
      ensures cache == if found.Some? then Promote(old(cache), found.value, capacity) else old(cache)
      ensures touches == if found.Some? then old(touches) + [Used(id)] else old(touches)
    {
      found := CacheGet(id);
      if found.Some? {
        cacheHits := cacheHits + 1;
        return;
      }
      cacheMisses := cacheMisses + 1;
      found := Load(id);
    }

    /** What `CacheGet` means for the answer. */
    method Hit(id: int) returns (found: Option<Node>)
      requires CacheInv(nodes)
      modifies `cache, `touches
      ensures CacheInv(nodes) && (found.Some? ==> id in nodes && found.value == nodes[id])
    {
      found := CacheGet(id);
    }

    method CacheGetNext(ids: seq<int>, id: int, found: seq<Node>, missing: seq<int>)
      returns (found': seq<Node>, missing': seq<int>)
      requires CacheInv(nodes) && Answered(found, nodes, missing) == multiset(TableAnswers(nodes, ids))
      modifies `cache, `touches, `cacheHits, `cacheMisses
      ensures CacheInv(nodes) && Answered(found', nodes, missing') == multiset(TableAnswers(nodes, ids + [id]))
      ensures cacheHits - |found'| == old(cacheHits) - |found|
      ensures cacheMisses - |missing'| == old(cacheMisses) - |missing|
      ensures |found'| + |missing'| == |found| + |missing| + 1
    {
      var hit := Hit(id);
      AnsweredSnoc(found, nodes, missing, ids, id);
      if hit.Some? {
        found', missing' := found + [hit.value], missing;
        cacheHits := cacheHits + 1;
      } else {
        found', missing' := found, missing + [id];
        cacheMisses := cacheMisses + 1;
      }
    }

    /** Splits the ids into the nodes the cache answers and the ids it misses. */
    method CacheGetAll(ids: seq<int>) returns (found: seq<Node>, missing: seq<int>)
      requires CacheInv(nodes)
      modifies `cache, `touches, `cacheHits, `cacheMisses
      ensures CacheInv(nodes)
      ensures Answered(found, nodes, missing) == multiset(TableAnswers(nodes, ids))
      ensures cacheHits == old(cacheHits) + |found| && cacheMisses == old(cacheMisses) + |missing|
      ensures |found| + |missing| == |ids|
    {
      found, missing := [], [];
      for i := 0 to |ids|
        invariant CacheInv(nodes)
        invariant Answered(found, nodes, missing) == multiset(TableAnswers(nodes, ids[..i]))
        invariant cacheHits == old(cacheHits) + |found| && cacheMisses == old(cacheMisses) + |missing|
        invariant |found| + |missing| == i
      {
        assert ids[..i + 1] == ids[..i] + [ids[i]];
        found, missing := CacheGetNext(ids[..i], ids[i], found, missing);
      }
      assert ids[..|ids|] == ids;
    }

    method LoadAll(missing: seq<int>) returns (found: seq<Node>)
      requires CacheInv(nodes) && forall id :: id in nodes ==> nodes[id].id == id
      modifies `cache, `touches
      ensures CacheInv(nodes) && found == TableAnswers(nodes, missing)
    {
      found := [];
      for i := 0 to |missing|
        invariant CacheInv(nodes) && found == TableAnswers(nodes, missing[..i])
      {
        assert missing[..i + 1][..i] == missing[..i];
        var n := Load(missing[i]);
        if n.Some? {
          found := found + [n.value];
        }
      }
      assert missing[..|missing|] == missing;
    }

    /** The table's answers, each as often, hits before misses; every id is counted once. */
    method GetNodes(ids: seq<int>) returns (found: seq<Node>)
      requires Valid()
      modifies `cache, `touches, `cacheHits, `cacheMisses
      ensures Valid() && multiset(found) == multiset(TableAnswers(nodes, ids))
      ensures forall n :: multiset(found)[n] == if n.id in nodes && nodes[n.id] == n then multiset(ids)[n.id] else 0
      ensures cacheHits + cacheMisses == old(cacheHits + cacheMisses) + |ids|
    {
      var missing;
      found, missing := CacheGetAll(ids);
      var loaded := LoadAll(missing);
      found := found + loaded;
      forall n {
        AnswersCount(nodes, ids, n);
      }
    }

    method UpdateConfidence(id: int, confidence: real, block: int) returns (previous: Option<real>)
      requires Valid()
      modifies this, merkle
      ensures Valid() && (old(Mirrored()) ==> Mirrored())
      ensures match Fetch(old(nodes), id)
              case None => previous == None && nodes == old(nodes)
              case Some(n) =>
                previous == Some(n.confidence) && nodes == old(nodes)[id := Confirmed(n, confidence, block)]
      ensures id in old(nodes) ==>
        && id in nodes && nodes[id].id == old(nodes)[id].id && nodes[id].content == old(nodes)[id].content
        && nodes[id].confidence == (if confidence < 0.0 then 0.0 else if confidence > 1.0 then 1.0 else confidence)
        && nodes[id].lastReferencedBlock == block
        && nodes[id].referenceCount == old(nodes)[id].referenceCount + 1
      ensures overwrites == old(overwrites) + if id in old(nodes) then 1 else 0
      ensures cacheHits == old(cacheHits) + if old(Retained(touches, id, capacity)) then 1 else 0
      ensures cacheHits + cacheMisses == old(cacheHits + cacheMisses) + 1
      ensures touches == if id in old(nodes) then old(touches) + [Used(id), Used(id)] else old(touches)
    {
      var found := GetNode(id);
      if found.None? {
        return None;
      }
      PutNode(Confirmed(found.value, confidence, block));
      previous := Some(found.value.confidence);
    }

    /** Takes a node out of the cache and of the tree. */
    method Forget(id: int, ghost kept: Table)
      requires merkle.Valid() && CacheInv(kept) && LeavesSound(merkle.leaves, kept, leafOf)
      modifies `cache, `touches, merkle
      ensures merkle.Valid() && CacheInv(kept - {id}) && touches == old(touches) + [Dropped(id)]
      ensures LeavesSound(merkle.leaves, kept - {id}, leafOf)
      ensures old(LeavesComplete(merkle.leaves, kept, leafOf)) ==> LeavesComplete(merkle.leaves, kept - {id}, leafOf)
    {
      WithoutIsOk(cache, kept, kept - {id}, id, capacity);
      DeleteKeepsSound(merkle.leaves, kept, id, leafOf);
      if LeavesComplete(merkle.leaves, kept, leafOf) {
        DeleteKeepsComplete(merkle.leaves, kept, id, leafOf);
      }
      if !Has(merkle.leaves, id) {
        DeleteAbsent(merkle.leaves, id);
      }
      DropIsReflected(cache, touches, id, capacity);
      cache := WithoutId(cache, id);
      touches := touches + [Dropped(id)];
      var removed := merkle.Remove(id);
    }

    method RemoveNode(id: int)
      requires Valid() && id in nodes
      modifies this, merkle
      ensures Valid() && nodes == old(nodes) - {id} && (old(Mirrored()) ==> Mirrored())
      ensures overwrites == old(overwrites) && cacheHits == old(cacheHits) && cacheMisses == old(cacheMisses)
      ensures touches == old(touches) + [Dropped(id)]
    {
      RemovalCounts(nodes, id);
      Forget(id, nodes);
      nodes := nodes - {id};
      nodeCount := nodeCount - 1;
    }

    /** `edgeScan` is the iteration order of the edge table. */
    method DeleteNode(id: int, cascade: bool, edgeScan: seq<string>) returns (existed: bool, edgesRemoved: nat)
      requires Valid() && edgeStore.Valid()
      requires forall k :: k in edgeStore.edges <==> k in edgeScan
      requires forall i, j :: 0 <= i < j < |edgeScan| ==> edgeScan[i] != edgeScan[j]
      modifies this, merkle, edgeStore
      ensures Valid() && nodes == old(nodes) - {id} && (old(Mirrored()) ==> Mirrored())
      ensures existed == (id in old(nodes))
      ensures overwrites == old(overwrites) && cacheHits == old(cacheHits) && cacheMisses == old(cacheMisses)
      ensures touches == if existed then old(touches) + [Dropped(id)] else old(touches)
      ensures edgeStore.Valid()
        && edgeStore.Value() ==
             if existed && cascade then E.Cascade(old(edgeStore.Value()), id) else old(edgeStore.Value())
      ensures edgesRemoved == |old(edgeStore.edges)| - |edgeStore.edges|
    {
      existed := id in nodes;
      edgesRemoved := 0;
      if existed {
        if cascade {
          edgesRemoved := edgeStore.CascadeDelete(id, edgeScan);
        }
        RemoveNode(id);
      } else {
        assert nodes - {id} == nodes;
      }
    }

    method LowValue(minScore: real, block: int, scan: seq<Node>) returns (batch: seq<Node>)
      requires IsScan(scan, nodes)
      ensures forall n :: n in batch <==> Agrees(n, nodes) && valueScore(n, block) < minScore
      ensures forall i, j :: 0 <= i < j < |batch| ==> batch[i].id != batch[j].id
    {
      batch := [];
      for i := 0 to |scan|
        invariant forall n :: n in batch <==> n in scan[..i] && valueScore(n, block) < minScore
        invariant forall i, j :: 0 <= i < j < |batch| ==> batch[i].id != batch[j].id
      {
        assert scan[..i + 1] == scan[..i] + [scan[i]];
        if valueScore(scan[i], block) < minScore {
          forall j | 0 <= j < |batch| ensures batch[j].id != scan[i].id {
            assert batch[j] in scan[..i];
          }
          batch := batch + [scan[i]];
        }
      }
      assert scan[..|scan|] == scan;
    }

    method ForgetAll(batch: seq<Node>, ghost rest: Table)
      requires rest == Remaining(nodes, batch)
      requires merkle.Valid() && CacheInv(nodes) && LeavesSound(merkle.leaves, nodes, leafOf)
      modifies `cache, `touches, merkle
      ensures merkle.Valid() && CacheInv(rest) && touches == old(touches) + Drops(batch)
      ensures LeavesSound(merkle.leaves, rest, leafOf)
      ensures old(Mirrored()) ==> LeavesComplete(merkle.leaves, rest, leafOf)
    {
      for i := 0 to |batch|
        invariant merkle.Valid() && CacheInv(Remaining(nodes, batch[..i]))
        invariant touches == old(touches) + Drops(batch[..i])
        invariant LeavesSound(merkle.leaves, Remaining(nodes, batch[..i]), leafOf)
        invariant old(Mirrored()) ==> LeavesComplete(merkle.leaves, Remaining(nodes, batch[..i]), leafOf)
      {
        assert batch[..i + 1][..i] == batch[..i];
        Forget(batch[i].id, Remaining(nodes, batch[..i]));
      }
      assert batch[..|batch|] == batch;
    }

    /** Takes the nodes of the batch out; `rest` are the others. */
    method RemoveAll(batch: seq<Node>, rest: Table)
      requires Valid() && rest == Remaining(nodes, batch) && |rest| == |nodes| - |batch|
      requires forall id :: id in rest ==> rest[id].id == id
      modifies this, merkle
      ensures Valid() && (old(Mirrored()) ==> Mirrored()) && nodes == rest
      ensures overwrites == old(overwrites) && cacheHits == old(cacheHits) && cacheMisses == old(cacheMisses)
    {
      ForgetAll(batch, rest);
      nodes, nodeCount := rest, nodeCount - |batch|;
    }

    /** Deletes exactly the nodes valued below the threshold. */
    method Compact(minScore: real, block: int, scan: seq<Node>) returns (pruned: int)
      requires Valid() && IsScan(scan, nodes)
      modifies this, merkle
      ensures Valid() && (old(Mirrored()) ==> Mirrored())
      ensures nodes == Kept(old(nodes), valueScore, minScore, block)
      ensures pruned == |old(nodes)| - |nodes| && overwrites == old(overwrites)
      ensures cacheHits == old(cacheHits) && cacheMisses == old(cacheMisses)
    {
      var batch := LowValue(minScore, block, scan);
      pruned := |batch|;
      RemainingIsRest(nodes, batch);
      RemainingCounts(nodes, batch);
      KeptIsRest(nodes, batch, valueScore, minScore, block);
      RemoveAll(batch, nodes - IdsOf(batch));
    }

    method MerkleRoot() returns (root: Digest)
      requires Valid()
      modifies merkle
      ensures Valid() && root == Root(merkle.h, Hashes(merkle.leaves)) && merkle.leaves == old(merkle.leaves)
    {
      root := merkle.CurrentRoot();
    }

    /** Puts every stored node's leaf again: after that the tree mirrors the table, whatever
        it missed before; a tree that mirrored it already is unchanged. */
    method RebuildMerkle(scan: seq<Node>) returns (root: Digest)
      requires Valid() && IsScan(scan, nodes)
      modifies merkle
      ensures Valid() && Mirrored()
      ensures root == Root(merkle.h, Hashes(merkle.leaves))
      ensures old(Mirrored()) ==> merkle.leaves == old(merkle.leaves)
    {
      for i := 0 to |scan|
        invariant merkle.Valid() && LeavesSound(merkle.leaves, nodes, leafOf)
        invariant forall n :: n in scan[..i] ==> Leaf(n.id, leafOf(n)) in merkle.leaves
      {
        assert scan[..i + 1] == scan[..i] + [scan[i]];
        assert Agrees(scan[i], nodes) && nodes[scan[i].id := scan[i]] == nodes;
        PutKeepsSound(merkle.leaves, nodes, scan[i], leafOf);
        forall n | n in scan[..i + 1]
          ensures Leaf(n.id, leafOf(n)) in Put(merkle.leaves, Leaf(scan[i].id, leafOf(scan[i])))
        {
          PutEntries(merkle.leaves, Leaf(scan[i].id, leafOf(scan[i])), Leaf(n.id, leafOf(n)));
        }
        merkle.Insert(scan[i].id, leafOf(scan[i]));
      }
      assert scan[..|scan|] == scan;
      assert Mirrored() by {
        forall id | id in nodes ensures Leaf(id, leafOf(nodes[id])) in merkle.leaves {
          assert Agrees(nodes[id], nodes);
        }
      }
      if old(Mirrored()) {
        LeavesAreCanonical(merkle.leaves, old(merkle.leaves), nodes, leafOf);
      }
      root := merkle.CurrentRoot();
    }
  }

  /** Two stores that reached the same table, by whatever runs, have the same root. */
  lemma RootDependsOnTableOnly(a: ShardStore, b: ShardStore)
    requires a.Valid() && a.Mirrored() && b.Valid() && b.Mirrored()
    requires a.nodes == b.nodes && a.leafOf == b.leafOf && a.merkle.h == b.merkle.h
    ensures Root(a.merkle.h, Hashes(a.merkle.leaves)) == Root(b.merkle.h, Hashes(b.merkle.leaves))
  {
    LeavesAreCanonical(a.merkle.leaves, b.merkle.leaves, a.nodes, a.leafOf);
  }
}
