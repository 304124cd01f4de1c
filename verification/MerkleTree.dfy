/** The odd-duplicating Merkle tree over a list of leaf hashes, its proofs, and exactly
    what a root binds. The pair hash is a parameter `h`.
 */
module MerkleTree {

  /** 32 bytes in the program; nothing below depends on the length. */
  datatype Digest = Digest(bytes: seq<bv8>)

  type Hash = (Digest, Digest) -> Digest

  const ZERO: Digest := Digest([
    0, 0, 0, 0, 0, 0, 0, 0, 0, 0, 0, 0, 0, 0, 0, 0,
    0, 0, 0, 0, 0, 0, 0, 0, 0, 0, 0, 0, 0, 0, 0, 0])

  /** One sibling per level; the flag says that the sibling is on the right. */
  type Proof = seq<(Digest, bool)>

  // ---- The tree ----

  function Left(s: seq<Digest>, i: nat): Digest
    requires 2 * i < |s|
  {
    s[2 * i]
  }

  /** The right partner; an odd last node is its own. */
  function Right(s: seq<Digest>, i: nat): Digest
    requires 2 * i < |s|
  {
    if 2 * i + 1 < |s| then s[2 * i + 1] else s[2 * i]
  }

  function Parents(h: Hash, s: seq<Digest>): (p: seq<Digest>)
    ensures |p| == (|s| + 1) / 2
    ensures forall i :: 0 <= i < |p| ==> p[i] == h(Left(s, i), Right(s, i))
  {
    seq((|s| + 1) / 2, i requires 0 <= i < (|s| + 1) / 2 => h(Left(s, i), Right(s, i)))
  }

  function Root(h: Hash, s: seq<Digest>): Digest
    decreases |s|
  {
    if s == [] then ZERO else if |s| == 1 then s[0] else Root(h, Parents(h, s))
  }

  function Depth(n: nat): nat {
    if n <= 1 then 0 else 1 + Depth((n + 1) / 2)
  }

  function Ascend(h: Hash, current: Digest, step: (Digest, bool)): Digest {
    if step.1 then h(current, step.0) else h(step.0, current)
  }

  function Fold(h: Hash, leaf: Digest, proof: Proof): Digest
    decreases |proof|
  {
    if proof == [] then leaf else Fold(h, Ascend(h, leaf, proof[0]), proof[1..])
  }

  function Sibling(s: seq<Digest>, i: nat): (Digest, bool)
    requires i < |s|
  {
    if i % 2 == 0 then (if i + 1 < |s| then s[i + 1] else s[i], true) else (s[i - 1], false)
  }

  function ProofOf(h: Hash, s: seq<Digest>, i: nat): Proof
    requires i < |s|
    decreases |s|
  {
    if |s| == 1 then [] else [Sibling(s, i)] + ProofOf(h, Parents(h, s), i / 2)
  }

  /** The smallest trees: nothing is 32 zero bytes, a pair is hashed left to right, an odd last
      node with itself. */
  lemma SmallTrees(h: Hash, a: Digest, b: Digest, c: Digest)
    ensures |ZERO.bytes| == 32 && forall i :: 0 <= i < 32 ==> ZERO.bytes[i] == 0
    ensures Root(h, []) == ZERO && Root(h, [a]) == a
    ensures Root(h, [a, b]) == h(a, b)
    ensures Root(h, [a, b, c]) == h(h(a, b), h(c, c))
  {
    RootOfPair(h, a, b);
    RootOfPair(h, h(a, b), h(c, c));
    var s := [a, b, c];
    assert Parents(h, s) == [h(a, b), h(c, c)];
    assert Root(h, s) == Root(h, Parents(h, s));
  }

  lemma RootOfPair(h: Hash, a: Digest, b: Digest)
    ensures Root(h, [a, b]) == h(a, b)
  {
    var s := [a, b];
    assert Parents(h, s) == [h(a, b)];
    assert Root(h, s) == Root(h, Parents(h, s));
  }

  /** Their proofs say on which side each sibling is. */
  lemma SmallProofs(h: Hash, a: Digest, b: Digest, c: Digest)
    ensures ProofOf(h, [a], 0) == []
    ensures ProofOf(h, [a, b], 0) == [(b, true)] && ProofOf(h, [a, b], 1) == [(a, false)]
    ensures ProofOf(h, [a, b, c], 0) == [(b, true), (h(c, c), true)]
    ensures ProofOf(h, [a, b, c], 2) == [(c, true), (h(a, b), false)]
  {
    PairProofs(h, a, b);
    PairProofs(h, h(a, b), h(c, c));
    var s := [a, b, c];
    assert Parents(h, s) == [h(a, b), h(c, c)];
    assert ProofOf(h, s, 0) == [Sibling(s, 0)] + ProofOf(h, Parents(h, s), 0);
    assert ProofOf(h, s, 2) == [Sibling(s, 2)] + ProofOf(h, Parents(h, s), 1);
  }

  lemma PairProofs(h: Hash, a: Digest, b: Digest)
    ensures ProofOf(h, [a, b], 0) == [(b, true)] && ProofOf(h, [a, b], 1) == [(a, false)]
  {
    var s := [a, b];
    assert |Parents(h, s)| == 1;
    assert ProofOf(h, s, 0) == [Sibling(s, 0)] + ProofOf(h, Parents(h, s), 0);
    assert ProofOf(h, s, 1) == [Sibling(s, 1)] + ProofOf(h, Parents(h, s), 0);
  }

  // ---- The loops ----

  /** One pass over the chunks of a level. */
  method NextLevel(h: Hash, level: seq<Digest>) returns (next: seq<Digest>)
    ensures next == Parents(h, level)
  {
    next := [];
    var i := 0;
    while i < |level|
      invariant i % 2 == 0 && i <= |level| + 1 && |next| == i / 2
      invariant forall j :: 0 <= j < |next| ==> next[j] == h(Left(level, j), Right(level, j))
    {
      var chunk := if i + 2 <= |level| then level[i..i + 2] else level[i..];
      if |chunk| == 2 {
        next := next + [h(chunk[0], chunk[1])];
      } else {
        next := next + [h(chunk[0], chunk[0])];
      }
      i := i + 2;
    }
  }

  method BuildTree(h: Hash, hashes: seq<Digest>) returns (root: Digest)
    ensures root == Root(h, hashes)
  {
    if hashes == [] {
      return ZERO;
    }
    if |hashes| == 1 {
      return hashes[0];
    }
    var level := hashes;
    while |level| > 1
      invariant level != [] && Root(h, level) == Root(h, hashes)
      decreases |level|
    {
      level := NextLevel(h, level);
    }
    root := level[0];
  }

  method VerifyProof(h: Hash, leaf: Digest, proof: Proof, root: Digest) returns (ok: bool)
    ensures ok == (Fold(h, leaf, proof) == root)
  {
    var current := leaf;
    for i := 0 to |proof|
      invariant Fold(h, current, proof[i..]) == Fold(h, leaf, proof)
    {
      assert proof[i..][1..] == proof[i + 1..];
      current := Ascend(h, current, proof[i]);
    }
    ok := current == root;
  }

  method MakeProof(h: Hash, hashes: seq<Digest>, pos: nat) returns (proof: Proof)
    requires pos < |hashes|
    ensures proof == ProofOf(h, hashes, pos)
  {
    proof := [];
    var level := hashes;
    var idx: nat := pos;
    while |level| > 1
      invariant idx < |level| && proof + ProofOf(h, level, idx) == ProofOf(h, hashes, pos)
      decreases |level|
    {
      ghost var rest := ProofOf(h, Parents(h, level), idx / 2);
      assert proof + ([Sibling(level, idx)] + rest) == (proof + [Sibling(level, idx)]) + rest;
      var siblingIdx := if idx % 2 == 0 then idx + 1 else idx - 1;
      var sibling := if siblingIdx < |level| then level[siblingIdx] else level[idx];
      assert (sibling, idx % 2 == 0) == Sibling(level, idx);
      proof := proof + [(sibling, idx % 2 == 0)];
      level := NextLevel(h, level);
      idx := idx / 2;
    }
  }

  // ---- Completeness ----

  /** Every proof verifies, and has one step per level. */
  lemma {:induction false} ProofVerifies(h: Hash, s: seq<Digest>, i: nat)
    requires i < |s|
    ensures Fold(h, s[i], ProofOf(h, s, i)) == Root(h, s)
    ensures |ProofOf(h, s, i)| == Depth(|s|)
    decreases |s|
  {
    if |s| <= 1 {
    } else {
      var rest := ProofOf(h, Parents(h, s), i / 2);
      ProofVerifies(h, Parents(h, s), i / 2);
      assert ([Sibling(s, i)] + rest)[1..] == rest;
      assert Ascend(h, s[i], Sibling(s, i)) == Parents(h, s)[i / 2];
    }
  }

  // ---- The levels of the tree ----

  function LevelAt(h: Hash, s: seq<Digest>, level: nat): seq<Digest> {
    if level == 0 then s else Parents(h, LevelAt(h, s, level - 1))
  }

  lemma {:induction false} LevelAbove(h: Hash, s: seq<Digest>, level: nat)
    ensures LevelAt(h, s, level + 1) == LevelAt(h, Parents(h, s), level)
  {
    if level == 0 {
    } else {
      LevelAbove(h, s, level - 1);
    }
  }

  /** The top level is the root alone. */
  lemma {:induction false} TopLevelIsRoot(h: Hash, s: seq<Digest>)
    requires s != []
    ensures LevelAt(h, s, Depth(|s|)) == [Root(h, s)]
    decreases |s|
  {
    if |s| <= 1 {
    } else {
      TopLevelIsRoot(h, Parents(h, s));
      LevelAbove(h, s, Depth(|s|) - 1);
    }
  }

  /** Any inner level of a tree can pose as a list of leaves: it has the same root. */
  lemma {:induction false} InnerLevelHasRoot(h: Hash, s: seq<Digest>, level: nat)
    requires s != [] && level <= Depth(|s|)
    ensures LevelAt(h, s, level) != [] && Root(h, LevelAt(h, s, level)) == Root(h, s)
    decreases level
  {
    if level == 0 {
    } else {
      LevelAbove(h, s, level - 1);
      InnerLevelHasRoot(h, Parents(h, s), level - 1);
    }
  }

  // ---- What the root binds ----

  function Pow2(n: nat): nat { if n == 0 then 1 else 2 * Pow2(n - 1) }

  /** The leaf that slot `i` of the perfect tree repeats. */
  function Source(n: nat, i: nat): (k: nat)
    requires n > 0
    ensures k < n
  {
    if n == 1 then 0
    else
      var j := Source((n + 1) / 2, i / 2);
      if 2 * j + i % 2 < n then 2 * j + i % 2 else n - 1
  }

  /** The leaves of the perfect tree of the same depth: duplication made explicit. */
  function Expand(s: seq<Digest>): (e: seq<Digest>)
    requires s != []
    ensures |e| == Pow2(Depth(|s|))
    ensures forall i :: 0 <= i < |e| ==> e[i] == s[Source(|s|, i)]
  {
    seq(Pow2(Depth(|s|)), i requires 0 <= i => s[Source(|s|, i)])
  }

  lemma {:induction false} DepthCovers(n: nat)
    requires n > 0
    ensures n <= Pow2(Depth(n))
  {
    if n <= 1 {
    } else {
      DepthCovers((n + 1) / 2);
    }
  }

  /** Real leaves sit in their own slots. */
  lemma {:induction false} SourceOfLeaf(n: nat, i: nat)
    requires i < n
    ensures Source(n, i) == i
  {
    if n <= 1 {
    } else {
      SourceOfLeaf((n + 1) / 2, i / 2);
    }
  }

  lemma ExpandParents(h: Hash, s: seq<Digest>)
    requires |s| > 1
    ensures Parents(h, Expand(s)) == Expand(Parents(h, s))
  {
    var e, p := Expand(s), Parents(h, s);
    forall i | 0 <= i < |Expand(p)| ensures Parents(h, e)[i] == Expand(p)[i] {
      var j := Source(|p|, i);
      assert (2 * i) / 2 == i && (2 * i + 1) / 2 == i;
      assert Source(|s|, 2 * i) == 2 * j;
    }
  }

  /** A tree and its perfect expansion have the same root. */
  lemma {:induction false} RootOfExpansion(h: Hash, s: seq<Digest>)
    requires s != []
    ensures Root(h, Expand(s)) == Root(h, s)
    decreases |s|
  {
    if |s| == 1 {
      assert Pow2(0) == 1;
    } else {
      ExpandParents(h, s);
      RootOfExpansion(h, Parents(h, s));
    }
  }

  /** The pairs hashed while building the tree, and while checking a proof. */
  ghost function TreePairs(h: Hash, s: seq<Digest>): set<(Digest, Digest)>
    decreases |s|
  {
    if |s| <= 1 then {}
    else (set i | 0 <= i < (|s| + 1) / 2 :: (Left(s, i), Right(s, i))) + TreePairs(h, Parents(h, s))
  }

  ghost function ProofPairs(h: Hash, leaf: Digest, proof: Proof): set<(Digest, Digest)>
    decreases |proof|
  {
    if proof == [] then {}
    else
      {if proof[0].1 then (leaf, proof[0].0) else (proof[0].0, leaf)}
      + ProofPairs(h, Ascend(h, leaf, proof[0]), proof[1..])
  }

  /** None of these pairs collide under the hash. */
  ghost predicate NoCollision(h: Hash, pairs: set<(Digest, Digest)>) {
    forall p, q :: p in pairs && q in pairs && h(p.0, p.1) == h(q.0, q.1) ==> p == q
  }

  lemma NoCollisionInPart(h: Hash, part: set<(Digest, Digest)>, pairs: set<(Digest, Digest)>)
    requires NoCollision(h, pairs) && part <= pairs
    ensures NoCollision(h, part)
  {
  }

  /** Lists of the same length with the same root are equal, unless the hash collided. */
  lemma {:induction false} RootBindsList(h: Hash, s: seq<Digest>, t: seq<Digest>)
    requires |s| == |t| && Root(h, s) == Root(h, t)
    requires NoCollision(h, TreePairs(h, s) + TreePairs(h, t))
    ensures s == t
    decreases |s|
  {
    if |s| <= 1 {
    } else {
      RootBindsList(h, Parents(h, s), Parents(h, t));
      forall k | 0 <= k < |s| ensures s[k] == t[k] {
        var i := k / 2;
        assert Parents(h, s)[i] == Parents(h, t)[i];
        assert (Left(s, i), Right(s, i)) in TreePairs(h, s);
        assert (Left(t, i), Right(t, i)) in TreePairs(h, t);
        assert k == 2 * i || k == 2 * i + 1;
      }
    }
  }

  /** Exactly when two lists of the same depth share a root: their expansions agree. */
  lemma SameRootIffSameExpansion(h: Hash, s: seq<Digest>, t: seq<Digest>)
    requires s != [] && t != [] && Depth(|s|) == Depth(|t|)
    requires NoCollision(h, TreePairs(h, Expand(s)) + TreePairs(h, Expand(t)))
    ensures Root(h, s) == Root(h, t) <==> Expand(s) == Expand(t)
  {
    RootOfExpansion(h, s);
    RootOfExpansion(h, t);
    if Root(h, s) == Root(h, t) {
      RootBindsList(h, Expand(s), Expand(t));
    }
  }

  /** The leaves a list counts for: an empty list has the root of one zero leaf. */
  function Leaves(s: seq<Digest>): (l: seq<Digest>)
    ensures l != []
  {
    if s == [] then [ZERO] else s
  }

  lemma EmptyIsZeroLeaf(h: Hash, s: seq<Digest>)
    ensures Root(h, Leaves(s)) == Root(h, s)
  {
  }

  lemma {:induction false} LevelDepth(h: Hash, s: seq<Digest>, level: nat)
    requires level <= Depth(|s|)
    ensures Depth(|LevelAt(h, s, level)|) == Depth(|s|) - level
    decreases level
  {
    if level == 0 {
    } else {
      LevelDepth(h, s, level - 1);
    }
  }

  lemma PairsOfParents(h: Hash, s: seq<Digest>, pairs: set<(Digest, Digest)>)
    requires |s| > 1 && TreePairs(h, s) <= pairs
    ensures TreePairs(h, Parents(h, s)) <= pairs
  {
  }

  lemma {:induction false} LevelPairs(h: Hash, s: seq<Digest>, level: nat)
    requires level <= Depth(|s|)
    ensures TreePairs(h, LevelAt(h, s, level)) <= TreePairs(h, s)
    decreases level
  {
    if level == 0 {
    } else {
      LevelPairs(h, s, level - 1);
      LevelDepth(h, s, level - 1);
      PairsOfParents(h, LevelAt(h, s, level - 1), TreePairs(h, s));
    }
  }

  lemma {:induction false} PerfectDepth(n: nat)
    ensures Pow2(n) > 0 && Depth(Pow2(n)) == n
  {
    if n == 0 {
    } else {
      PerfectDepth(n - 1);
    }
  }

  lemma {:induction false} PerfectLevel(h: Hash, s: seq<Digest>, n: nat, level: nat)
    requires |s| == Pow2(n) && level <= n
    ensures |LevelAt(h, s, level)| == Pow2(n - level)
    decreases level
  {
    if level == 0 {
    } else {
      PerfectLevel(h, s, n, level - 1);
    }
  }

  /** The level of the deeper expansion that lies as high as the leaves of the shallower tree. */
  function LevelBeside(h: Hash, s: seq<Digest>, t: seq<Digest>): seq<Digest>
    requires s != [] && t != [] && Depth(|t|) <= Depth(|s|)
  {
    LevelAt(h, Expand(s), Depth(|s|) - Depth(|t|))
  }

  lemma PerfectLevelFits(h: Hash, s: seq<Digest>, n: nat, level: nat)
    requires |s| == Pow2(n) && level <= n
    ensures |LevelAt(h, s, level)| == Pow2(n - level)
    ensures Root(h, LevelAt(h, s, level)) == Root(h, s)
    ensures TreePairs(h, LevelAt(h, s, level)) <= TreePairs(h, s)
  {
    PerfectDepth(n);
    PerfectLevel(h, s, n, level);
    InnerLevelHasRoot(h, s, level);
    LevelPairs(h, s, level);
  }

  /** Exactly when any two lists share a root, whatever their lengths, unless hashes collide: the
      deeper tree, expanded, has the expanded leaves of the other one as a level. */
  lemma SameRootIff(h: Hash, s: seq<Digest>, t: seq<Digest>)
    requires Depth(|Leaves(t)|) <= Depth(|Leaves(s)|)
    requires NoCollision(h, TreePairs(h, Expand(Leaves(s))) + TreePairs(h, Expand(Leaves(t))))
    ensures Root(h, s) == Root(h, t) <==> LevelBeside(h, Leaves(s), Leaves(t)) == Expand(Leaves(t))
  {
    var deep, flat := LevelBeside(h, Leaves(s), Leaves(t)), Expand(Leaves(t));
    EmptyIsZeroLeaf(h, s);
    EmptyIsZeroLeaf(h, t);
    PerfectLevelFits(h, Expand(Leaves(s)), Depth(|Leaves(s)|), Depth(|Leaves(s)|) - Depth(|Leaves(t)|));
    RootOfExpansion(h, Leaves(s));
    RootOfExpansion(h, Leaves(t));
    if Root(h, s) == Root(h, t) {
      NoCollisionInPart(h, TreePairs(h, deep) + TreePairs(h, flat),
                        TreePairs(h, Expand(Leaves(s))) + TreePairs(h, flat));
      RootBindsList(h, deep, flat);
    }
  }

  /** The root does not bind the number of leaves: repeating an odd last leaf keeps it. */
  lemma LengthIsNotBound(h: Hash, a: Digest, b: Digest, c: Digest)
    ensures Root(h, [a, b, c]) == Root(h, [a, b, c, c])
  {
    assert Parents(h, [a, b, c]) == [h(a, b), h(c, c)];
    assert Parents(h, [a, b, c, c]) == [h(a, b), h(c, c)];
  }

  function Repeated(n: nat, x: Digest): (s: seq<Digest>)
    ensures |s| == n && forall i :: 0 <= i < n ==> s[i] == x
  {
    seq(n, i => x)
  }

  function Doubled(h: Hash, x: Digest, times: nat): Digest
    decreases times
  {
    if times == 0 then x else Doubled(h, h(x, x), times - 1)
  }

  lemma {:induction false} RootOfRepeated(h: Hash, n: nat, x: Digest)
    requires n > 0
    ensures Root(h, Repeated(n, x)) == Doubled(h, x, Depth(n))
    decreases n
  {
    if n == 1 {
    } else {
      assert Parents(h, Repeated(n, x)) == Repeated((n + 1) / 2, h(x, x));
      RootOfRepeated(h, (n + 1) / 2, h(x, x));
    }
  }

  lemma {:induction false} DoubledAdds(h: Hash, x: Digest, a: nat, b: nat)
    ensures Doubled(h, Doubled(h, x, a), b) == Doubled(h, x, a + b)
    decreases a
  {
    if a == 0 {
    } else {
      DoubledAdds(h, h(x, x), a - 1, b);
    }
  }

  /** No two lengths are told apart, whatever the hash: some lists of these lengths share a root. */
  lemma NoLengthIsBound(h: Hash, m: nat, n: nat)
    requires m > 0 && n > 0
    ensures exists s, t :: |s| == m && |t| == n && Root(h, s) == Root(h, t)
  {
    var s := Repeated(m, Doubled(h, ZERO, Depth(n)));
    var t := Repeated(n, Doubled(h, ZERO, Depth(m)));
    RootOfRepeated(h, m, Doubled(h, ZERO, Depth(n)));
    RootOfRepeated(h, n, Doubled(h, ZERO, Depth(m)));
    DoubledAdds(h, ZERO, Depth(n), Depth(m));
    DoubledAdds(h, ZERO, Depth(m), Depth(n));
    assert |s| == m && |t| == n && Root(h, s) == Root(h, t);
  }

  /** Nor the depth: an inner hash can pose as a leaf. */
  lemma DepthIsNotBound(h: Hash, a: Digest, b: Digest)
    ensures Root(h, [h(a, b)]) == Root(h, [a, b])
  {
    assert Parents(h, [a, b]) == [h(a, b)];
  }

  // ---- Soundness ----

  /** The slot a proof points to: its left/right turns, read as binary digits. */
  function Slot(proof: Proof): (i: nat)
    decreases |proof|
  {
    if proof == [] then 0 else (if proof[0].1 then 0 else 1) + 2 * Slot(proof[1..])
  }

  /** One level down: the hash of the step is the parent of slot `j`, so the step's leaf
      is the left or right child there. */
  lemma StepShowsChild(h: Hash, s: seq<Digest>, leaf: Digest, step: (Digest, bool), j: nat,
                       pairs: set<(Digest, Digest)>)
    requires 2 * j < |s| && Ascend(h, leaf, step) == h(Left(s, j), Right(s, j))
    requires NoCollision(h, pairs) && (Left(s, j), Right(s, j)) in pairs
    requires (if step.1 then (leaf, step.0) else (step.0, leaf)) in pairs
    ensures leaf == if step.1 then Left(s, j) else Right(s, j)
  {
  }

  /** An accepted proof of full depth shows exactly the leaf of its slot, unless a hash
      computed for the tree collides with one computed for the check. */
  lemma {:induction false} AcceptedProofShowsLeaf(h: Hash, s: seq<Digest>, leaf: Digest, proof: Proof)
    requires s != [] && |proof| == Depth(|s|)
    requires Fold(h, leaf, proof) == Root(h, s)
    requires NoCollision(h, TreePairs(h, s) + ProofPairs(h, leaf, proof))
    ensures leaf == s[Source(|s|, Slot(proof))]
    decreases |s|
  {
    if |s| <= 1 {
    } else {
      var p, up := Parents(h, s), Ascend(h, leaf, proof[0]);
      var j := Source(|p|, Slot(proof[1..]));
      var pairs := TreePairs(h, s) + ProofPairs(h, leaf, proof);
      HashedPairs(h, s, leaf, proof, j);
      NoCollisionInPart(h, TreePairs(h, p) + ProofPairs(h, up, proof[1..]), pairs);
      AcceptedProofShowsLeaf(h, p, up, proof[1..]);
      StepShowsChild(h, s, leaf, proof[0], j, pairs);
      LeafOfSlot(s, proof);
    }
  }

  lemma SourceStep(n: nat, i: nat, half: nat, bit: nat)
    requires n > 1 && half == i / 2 && bit == i % 2
    ensures var j := Source((n + 1) / 2, half);
      2 * j < n && Source(n, i) == if 2 * j + bit < n then 2 * j + bit else n - 1
  {
  }

  /** The slot of a proof is the child its first step takes, below the slot of the rest. */
  lemma LeafOfSlot(s: seq<Digest>, proof: Proof)
    requires |s| > 1 && proof != []
    ensures var j := Source((|s| + 1) / 2, Slot(proof[1..]));
      s[Source(|s|, Slot(proof))] == if proof[0].1 then Left(s, j) else Right(s, j)
  {
    SlotStep(proof);
    SourceStep(|s|, Slot(proof), Slot(proof[1..]), if proof[0].1 then 0 else 1);
  }

  lemma HashedPairs(h: Hash, s: seq<Digest>, leaf: Digest, proof: Proof, j: nat)
    requires |s| > 1 && proof != [] && 2 * j < |s|
    ensures var pairs := TreePairs(h, s) + ProofPairs(h, leaf, proof);
      && (Left(s, j), Right(s, j)) in pairs
      && (if proof[0].1 then (leaf, proof[0].0) else (proof[0].0, leaf)) in pairs
      && TreePairs(h, Parents(h, s)) + ProofPairs(h, Ascend(h, leaf, proof[0]), proof[1..]) <= pairs
  {
    assert (Left(s, j), Right(s, j)) in TreePairs(h, s);
  }

  lemma SlotStep(proof: Proof)
    requires proof != []
    ensures Slot(proof) / 2 == Slot(proof[1..])
    ensures Slot(proof) % 2 == if proof[0].1 then 0 else 1
  {
  }

  /** A proof shows a leaf of any list that fits it and is hashed within the tree. */
  lemma ProofShowsNode(h: Hash, nodes: seq<Digest>, leaf: Digest, proof: Proof, pairs: set<(Digest, Digest)>)
    requires nodes != [] && Depth(|nodes|) == |proof| && Fold(h, leaf, proof) == Root(h, nodes)
    requires NoCollision(h, pairs + ProofPairs(h, leaf, proof)) && TreePairs(h, nodes) <= pairs
    ensures leaf == nodes[Source(|nodes|, Slot(proof))]
  {
    NoCollisionInPart(h, TreePairs(h, nodes) + ProofPairs(h, leaf, proof), pairs + ProofPairs(h, leaf, proof));
    AcceptedProofShowsLeaf(h, nodes, leaf, proof);
  }

  /** A proof of fewer steps ends as many levels below the root: it shows a node of that level. */
  lemma ShortProofShowsNode(h: Hash, s: seq<Digest>, leaf: Digest, proof: Proof, level: nat)
    requires s != [] && level + |proof| == Depth(|s|)
    requires Fold(h, leaf, proof) == Root(h, s)
    requires NoCollision(h, TreePairs(h, s) + ProofPairs(h, leaf, proof))
    ensures LevelAt(h, s, level) != []
    ensures leaf == LevelAt(h, s, level)[Source(|LevelAt(h, s, level)|, Slot(proof))]
  {
    InnerLevelHasRoot(h, s, level);
    LevelDepth(h, s, level);
    LevelPairs(h, s, level);
    ProofShowsNode(h, LevelAt(h, s, level), leaf, proof, TreePairs(h, s));
  }
  lemma {:induction false} FoldSplits(h: Hash, leaf: Digest, proof: Proof, k: nat)
    requires k <= |proof|
    ensures Fold(h, leaf, proof) == Fold(h, Fold(h, leaf, proof[..k]), proof[k..])
    ensures ProofPairs(h, Fold(h, leaf, proof[..k]), proof[k..]) <= ProofPairs(h, leaf, proof)
    decreases k
  {
    if k == 0 {
      assert proof[0..] == proof;
    } else {
      FoldSplits(h, Ascend(h, leaf, proof[0]), proof[1..], k - 1);
      assert proof[..k][1..] == proof[1..][..k - 1] && proof[1..][k - 1..] == proof[k..];
    }
  }

  /** A proof of more steps shows that its first steps lead from what it starts with to a leaf. */
  lemma LongProofShowsLeaf(h: Hash, s: seq<Digest>, leaf: Digest, proof: Proof)
    requires s != [] && |proof| >= Depth(|s|)
    requires Fold(h, leaf, proof) == Root(h, s)
    requires NoCollision(h, TreePairs(h, s) + ProofPairs(h, leaf, proof))
    ensures var k := |proof| - Depth(|s|);
      Fold(h, leaf, proof[..k]) == s[Source(|s|, Slot(proof[k..]))]
  {
    var k := |proof| - Depth(|s|);
    var top := Fold(h, leaf, proof[..k]);
    FoldSplits(h, leaf, proof, k);
    NoCollisionInPart(h, TreePairs(h, s) + ProofPairs(h, top, proof[k..]),
                      TreePairs(h, s) + ProofPairs(h, leaf, proof));
    AcceptedProofShowsLeaf(h, s, top, proof[k..]);
  }

  /** What an accepted proof of any length shows: a node of the level that its length reaches down
      to, or, past the leaves, a chain of hashes that ends in a leaf. */
  lemma AcceptedProofShows(h: Hash, s: seq<Digest>, leaf: Digest, proof: Proof)
    requires s != [] && Fold(h, leaf, proof) == Root(h, s)
    requires NoCollision(h, TreePairs(h, s) + ProofPairs(h, leaf, proof))
    ensures |proof| <= Depth(|s|) ==>
      var nodes := LevelAt(h, s, Depth(|s|) - |proof|);
      nodes != [] && leaf == nodes[Source(|nodes|, Slot(proof))]
    ensures |proof| >= Depth(|s|) ==>
      var k := |proof| - Depth(|s|);
      Fold(h, leaf, proof[..k]) == s[Source(|s|, Slot(proof[k..]))]
  {
    if |proof| <= Depth(|s|) {
      ShortProofShowsNode(h, s, leaf, proof, Depth(|s|) - |proof|);
    }
    if |proof| >= Depth(|s|) {
      LongProofShowsLeaf(h, s, leaf, proof);
    }
  }

  /** So with one step per level the accepted leaf is one of the leaves; at a slot below the leaf
      count, that one. */
  lemma AcceptedLeafIsStored(h: Hash, s: seq<Digest>, leaf: Digest, proof: Proof)
    requires s != [] && Fold(h, leaf, proof) == Root(h, s)
    requires NoCollision(h, TreePairs(h, s) + ProofPairs(h, leaf, proof))
    ensures |proof| == Depth(|s|) ==> leaf in s && (Slot(proof) < |s| ==> leaf == s[Slot(proof)])
  {
    if |proof| == Depth(|s|) {
      AcceptedProofShowsLeaf(h, s, leaf, proof);
      if Slot(proof) < |s| {
        SourceOfLeaf(|s|, Slot(proof));
      }
    }
  }
}
