/** The incremental Merkle tree of a shard: leaves sorted by id, a cached root and cached
    levels, recomputed lazily; and the global tree over the shard roots.
 */
module IncrementalMerkle {
  import opened MerkleTree
  import opened Wrappers

  datatype Leaf = Leaf(id: int, hash: Digest)

  // ---- A sorted map, as the list of its entries ----

  ghost predicate Ascending(leaves: seq<Leaf>) {
    forall i :: 0 < i < |leaves| ==> leaves[i - 1].id < leaves[i].id
  }

  function Put(leaves: seq<Leaf>, leaf: Leaf): seq<Leaf> {
    if leaves == [] then [leaf]
    else if leaves[0].id < leaf.id then [leaves[0]] + Put(leaves[1..], leaf)
    else if leaves[0].id == leaf.id then [leaf] + leaves[1..]
    else [leaf] + leaves
  }

  function Delete(leaves: seq<Leaf>, id: int): seq<Leaf> {
    if leaves == [] then []
    else if leaves[0].id == id then leaves[1..]
    else [leaves[0]] + Delete(leaves[1..], id)
  }

  ghost predicate Has(leaves: seq<Leaf>, id: int) {
    exists l :: l in leaves && l.id == id
  }

  function Hashes(leaves: seq<Leaf>): (s: seq<Digest>)
    ensures |s| == |leaves| && forall i :: 0 <= i < |s| ==> s[i] == leaves[i].hash
  {
    seq(|leaves|, i requires 0 <= i < |leaves| => leaves[i].hash)
  }

  /** The first entry has the least id, and no other entry has it. */
  lemma {:induction false} HeadIsLeast(leaves: seq<Leaf>, l: Leaf)
    requires Ascending(leaves) && l in leaves
    ensures l == leaves[0] || leaves[0].id < l.id
  {
    if l != leaves[0] {
      assert l in leaves[1..];
      HeadIsLeast(leaves[1..], l);
    }
  }

  lemma TailIsRest(leaves: seq<Leaf>, l: Leaf)
    requires Ascending(leaves) && leaves != []
    ensures l in leaves[1..] <==> l in leaves && l != leaves[0]
  {
    if l in leaves[1..] {
      HeadIsLeast(leaves[1..], l);
    }
  }

  /** An id has one entry. */
  lemma {:induction false} OneEntryPerId(leaves: seq<Leaf>, k: Leaf, l: Leaf)
    requires Ascending(leaves) && k in leaves && l in leaves && k.id == l.id
    ensures k == l
  {
    HeadIsLeast(leaves, k);
    HeadIsLeast(leaves, l);
    if k != leaves[0] {
      OneEntryPerId(leaves[1..], k, l);
    }
  }

  ghost predicate SameEntries(a: seq<Leaf>, b: seq<Leaf>) {
    forall l :: l in a <==> l in b
  }

  lemma NoEntriesNoList(a: seq<Leaf>)
    ensures SameEntries([], a) || SameEntries(a, []) ==> a == []
  {
    if a != [] {
      assert a[0] in a && a[0] !in [];
    }
  }

  /** The list is determined by its entries: no trace of the order of updates. */
  lemma {:induction false} EntriesDetermineList(a: seq<Leaf>, b: seq<Leaf>)
    requires Ascending(a) && Ascending(b) && SameEntries(a, b)
    ensures a == b
  {
    if a == [] {
      NoEntriesNoList(b);
    } else if b == [] {
      NoEntriesNoList(a);
    } else {
      assert a[0] in b && b[0] in a;
      HeadIsLeast(a, b[0]);
      HeadIsLeast(b, a[0]);
      forall l ensures l in a[1..] <==> l in b[1..] {
        TailIsRest(a, l);
        TailIsRest(b, l);
      }
      EntriesDetermineList(a[1..], b[1..]);
      assert a == [a[0]] + a[1..] && b == [b[0]] + b[1..];
    }
  }

  lemma {:induction false} PutIsAscending(leaves: seq<Leaf>, leaf: Leaf)
    requires Ascending(leaves)
    ensures Ascending(Put(leaves, leaf))
    ensures Put(leaves, leaf) != []
    ensures Put(leaves, leaf)[0] == leaf || (leaves != [] && Put(leaves, leaf)[0] == leaves[0])
  {
    if leaves != [] && leaves[0].id < leaf.id {
      PutIsAscending(leaves[1..], leaf);
    }
  }

  /** Put replaces the entry of its id and keeps every other one. */
  lemma {:induction false} PutEntries(leaves: seq<Leaf>, leaf: Leaf, l: Leaf)
    requires Ascending(leaves)
    ensures l in Put(leaves, leaf) <==> (l in leaves && l.id != leaf.id) || l == leaf
  {
    if leaves == [] {
    } else {
      TailIsRest(leaves, l);
      if leaves[0].id < leaf.id {
        PutEntries(leaves[1..], leaf, l);
      } else if l in leaves {
        HeadIsLeast(leaves, l);
      }
    }
  }

  lemma {:induction false} DeleteIsAscending(leaves: seq<Leaf>, id: int)
    requires Ascending(leaves)
    ensures Ascending(Delete(leaves, id))
    ensures Delete(leaves, id) != [] ==> leaves != [] && leaves[0].id <= Delete(leaves, id)[0].id
  {
    if leaves != [] && leaves[0].id != id {
      DeleteIsAscending(leaves[1..], id);
    }
  }

  lemma {:induction false} DeleteEntries(leaves: seq<Leaf>, id: int, l: Leaf)
    requires Ascending(leaves)
    ensures l in Delete(leaves, id) <==> l in leaves && l.id != id
  {
    if leaves == [] {
    } else {
      TailIsRest(leaves, l);
      if leaves[0].id == id {
        if l in leaves {
          HeadIsLeast(leaves, l);
        }
      } else {
        DeleteEntries(leaves[1..], id, l);
      }
    }
  }

  // ---- The levels of the tree ----

  datatype Cell = Cell(level: nat, position: nat)

  /** The cache holds exactly the cells of the levels below `limit`, with their hashes. */
  ghost predicate CachedUpTo(cache: map<Cell, Digest>, h: Hash, s: seq<Digest>, limit: nat) {
    && (forall c: Cell :: c in cache <==> c.level < limit && c.position < |LevelAt(h, s, c.level)|)
    && (forall c: Cell :: c in cache ==> cache[c] == LevelAt(h, s, c.level)[c.position])
  }

  // ---- The tree of a shard ----

  class IncrementalMerkle {
    const h: Hash
    var leaves: seq<Leaf>
    var cachedRoot: Option<Digest>
    var levelCache: map<Cell, Digest>
    var dirty: bool

    ghost predicate Valid()
      reads this
    {
      && Ascending(leaves)
      && (cachedRoot.Some? ==> cachedRoot.value == Root(h, Hashes(leaves)))
      && (!dirty ==>
            cachedRoot.Some? && CachedUpTo(levelCache, h, Hashes(leaves), Depth(|leaves|) + 1))
    }

    constructor (h: Hash)
      ensures Valid() && leaves == [] && dirty && this.h == h
    {
      this.h := h;
      leaves, cachedRoot, levelCache, dirty := [], None, map[], true;
    }

    method Insert(id: int, hash: Digest)
      requires Valid()
      modifies this
      ensures Valid() && leaves == Put(old(leaves), Leaf(id, hash)) && dirty
      ensures cachedRoot.None? && levelCache == old(levelCache)
    {
      PutIsAscending(leaves, Leaf(id, hash));
      leaves := Put(leaves, Leaf(id, hash));
      dirty := true;
      cachedRoot := None;
    }

    /** A leaf that is not there leaves the tree, and its caches, alone. */
    method Remove(id: int) returns (removed: bool)
      requires Valid()
      modifies this
      ensures Valid() && removed == Has(old(leaves), id)
      ensures removed ==>
        leaves == Delete(old(leaves), id) && dirty && cachedRoot.None? && levelCache == old(levelCache)
      ensures !removed ==>
        leaves == old(leaves) && dirty == old(dirty) && cachedRoot == old(cachedRoot) && levelCache == old(levelCache)
    {
      removed := false;
      for i := 0 to |leaves|
        invariant !removed && unchanged(this)
        invariant forall l :: l in leaves[..i] ==> l.id != id
      {
        if leaves[i].id == id {
          assert leaves[i] in leaves;
          DeleteIsAscending(leaves, id);
          leaves := Delete(leaves, id);
          removed := true;
          dirty := true;
          cachedRoot := None;
          return;
        }
        assert leaves[..i + 1] == leaves[..i] + [leaves[i]];
      }
      assert leaves[..|leaves|] == leaves;
    }

    /** The cached root is the root of the current leaves. */
    method CurrentRoot() returns (root: Digest)
      requires Valid()
      modifies `cachedRoot, `levelCache, `dirty
      ensures Valid() && root == Root(h, Hashes(leaves)) && cachedRoot == Some(root)
      ensures leaves != [] && old(cachedRoot).None? ==> !dirty
    {
      if cachedRoot.Some? {
        return cachedRoot.value;
      }
      if leaves == [] {
        cachedRoot := Some(ZERO);
        return ZERO;
      }
      var hashes := Hashes(leaves);
      root := BuildTree(h, hashes);
      levelCache := map[];
      CacheTreeLevels(hashes);
      cachedRoot := Some(root);
      dirty := false;
    }

    /** Adds one level to the cache. */
    method CacheLevel(level: nat, row: seq<Digest>, ghost s: seq<Digest>)
      requires row == LevelAt(h, s, level) && CachedUpTo(levelCache, h, s, level)
      modifies `levelCache
      ensures CachedUpTo(levelCache, h, s, level + 1)
    {
      for position: nat := 0 to |row|
        invariant forall c: Cell :: c in levelCache <==>
          || (c.level < level && c.position < |LevelAt(h, s, c.level)|)
          || (c.level == level && c.position < position)
        invariant forall c: Cell :: c in levelCache ==> c.position < |LevelAt(h, s, c.level)|
        invariant forall c: Cell :: c in levelCache ==> levelCache[c] == LevelAt(h, s, c.level)[c.position]
      {
        levelCache := levelCache[Cell(level, position) := row[position]];
      }
    }

    method CacheTreeLevels(hashes: seq<Digest>)
      requires hashes != [] && levelCache == map[]
      modifies `levelCache
      ensures CachedUpTo(levelCache, h, hashes, Depth(|hashes|) + 1)
    {
      var levelData := hashes;
      var depth: nat := 0;
      CacheLevel(depth, levelData, hashes);
      while |levelData| > 1
        invariant levelData == LevelAt(h, hashes, depth) && levelData != []
        invariant depth + Depth(|levelData|) == Depth(|hashes|)
        invariant CachedUpTo(levelCache, h, hashes, depth + 1)
        decreases |levelData|
      {
        var next := NextLevel(h, levelData);
        depth := depth + 1;
        CacheLevel(depth, next, hashes);
        levelData := next;
      }
    }

    /** A proof exists exactly for stored ids; it verifies against the current root and has
        one step per level. */
    method ProofFor(id: int) returns (proof: Option<Proof>)
      requires Valid()
      modifies `cachedRoot, `levelCache, `dirty
      ensures Valid() && (proof.Some? <==> Has(leaves, id))
      ensures forall l :: l in leaves && l.id == id && proof.Some? ==>
        Fold(h, l.hash, proof.value) == Root(h, Hashes(leaves)) && |proof.value| == Depth(|leaves|)
    {
      var root := CurrentRoot();
      for i: nat := 0 to |leaves|
        invariant Valid()
        invariant forall l :: l in leaves[..i] ==> l.id != id
      {
        if leaves[i].id == id {
          var found := leaves[i];
          assert found in leaves;
          forall l | l in leaves && l.id == id ensures l == found {
            OneEntryPerId(leaves, l, found);
          }
          ProofVerifies(h, Hashes(leaves), i);
          var steps := MakeProof(h, Hashes(leaves), i);
          return Some(steps);
        }
        assert leaves[..i + 1] == leaves[..i] + [leaves[i]];
      }
      assert leaves[..|leaves|] == leaves;
      return None;
    }
  }

  // ---- The tree over the shards ----

  class GlobalMerkle {
    const h: Hash
    var shardRoots: seq<Leaf>
    var cachedGlobal: Option<Digest>

    ghost predicate Valid()
      reads this
    {
      && Ascending(shardRoots)
      && (cachedGlobal.Some? ==> cachedGlobal.value == Root(h, Hashes(shardRoots)))
    }

    constructor (h: Hash)
      ensures Valid() && shardRoots == [] && this.h == h
    {
      this.h := h;
      shardRoots, cachedGlobal := [], None;
    }

    method UpdateShard(shardId: int, root: Digest)
      requires Valid()
      modifies this
      ensures Valid() && shardRoots == Put(old(shardRoots), Leaf(shardId, root)) && cachedGlobal.None?
    {
      PutIsAscending(shardRoots, Leaf(shardId, root));
      shardRoots := Put(shardRoots, Leaf(shardId, root));
      cachedGlobal := None;
    }

    method GlobalRoot() returns (root: Digest)
      requires Valid()
      modifies `cachedGlobal
      ensures Valid() && root == Root(h, Hashes(shardRoots)) && cachedGlobal == Some(root)
    {
      if cachedGlobal.Some? {
        return cachedGlobal.value;
      }
      root := BuildTree(h, Hashes(shardRoots));
      cachedGlobal := Some(root);
    }
  }
}
