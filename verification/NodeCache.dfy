/** The least-recently-used cache of a shard, and which nodes it holds. */
module NodeCache {
  import opened Sequences
  import opened Wrappers

  /** `content` stands for the fields no operation below changes. */
  datatype Node = Node(id: int, content: string, confidence: real, lastReferencedBlock: int, referenceCount: int)

  type Table = map<int, Node>

  function Fetch(nodes: Table, id: int): Option<Node> {
    if id in nodes then Some(nodes[id]) else None
  }

  // ---- The cache, most recent first ----

  function Cached(cache: seq<Node>, id: int): Option<Node> {
    if cache == [] then None
    else if cache[0].id == id then Some(cache[0])
    else Cached(cache[1..], id)
  }

  function WithoutId(cache: seq<Node>, id: int): seq<Node> {
    if cache == [] then []
    else if cache[0].id == id then WithoutId(cache[1..], id)
    else [cache[0]] + WithoutId(cache[1..], id)
  }

  /** The node moves, or comes in, to the front; the least recent one falls off the end. */
  function Promote(cache: seq<Node>, n: Node, capacity: nat): seq<Node> {
    var all := [n] + WithoutId(cache, n.id);
    if |all| <= capacity then all else all[..capacity]
  }

  ghost predicate Agrees(n: Node, nodes: Table) {
    n.id in nodes && nodes[n.id] == n
  }

  ghost predicate CacheOk(cache: seq<Node>, nodes: Table, capacity: nat) {
    && |cache| <= capacity
    && (forall n :: n in cache ==> Agrees(n, nodes))
    && (forall i, j :: 0 <= i < j < |cache| ==> cache[i].id != cache[j].id)
  }

  /** The two tables differ at most at `id`. */
  ghost predicate SameElsewhere(id: int, nodes: Table, nodes': Table) {
    forall k :: k != id ==> (k in nodes <==> k in nodes') && (k in nodes ==> nodes'[k] == nodes[k])
  }

  lemma {:induction false} CachedIsStored(cache: seq<Node>, nodes: Table, id: int)
    requires forall n :: n in cache ==> Agrees(n, nodes)
    ensures Cached(cache, id).Some? ==> Cached(cache, id).value in cache && Fetch(nodes, id) == Cached(cache, id)
  {
    if cache != [] && cache[0].id != id {
      CachedIsStored(cache[1..], nodes, id);
    }
  }

  lemma {:induction false} CachedHasId(cache: seq<Node>, id: int)
    ensures Cached(cache, id).Some? ==> Cached(cache, id).value.id == id
  {
    if cache != [] && cache[0].id != id {
      CachedHasId(cache[1..], id);
    }
  }

  lemma {:induction false} WithoutMembers(cache: seq<Node>, id: int, n: Node)
    ensures n in WithoutId(cache, id) <==> n in cache && n.id != id
  {
    if cache == [] {
    } else {
      WithoutMembers(cache[1..], id, n);
    }
  }

  lemma {:induction false} WithoutIsShorter(cache: seq<Node>, id: int)
    requires forall i, j :: 0 <= i < j < |cache| ==> cache[i].id != cache[j].id
    ensures |WithoutId(cache, id)| <= |cache|
    ensures var w := WithoutId(cache, id); forall i, j :: 0 <= i < j < |w| ==> w[i].id != w[j].id
  {
    if cache == [] {
    } else {
      var rest := cache[1..];
      WithoutIsShorter(rest, id);
      forall n | n in WithoutId(rest, id) ensures n.id != cache[0].id {
        WithoutMembers(rest, id, n);
        var i :| 0 <= i < |rest| && rest[i] == n;
        assert cache[i + 1] == n;
      }
    }
  }

  lemma WithoutIsOk(cache: seq<Node>, nodes: Table, nodes': Table, id: int, capacity: nat)
    requires CacheOk(cache, nodes, capacity) && SameElsewhere(id, nodes, nodes')
    ensures CacheOk(WithoutId(cache, id), nodes', capacity)
  {
    WithoutIsShorter(cache, id);
    forall n | n in WithoutId(cache, id) ensures Agrees(n, nodes') {
      WithoutMembers(cache, id, n);
      assert Agrees(n, nodes);
    }
  }

  lemma PromoteIsOk(cache: seq<Node>, nodes: Table, nodes': Table, n: Node, capacity: nat)
    requires capacity > 0 && CacheOk(cache, nodes, capacity) && SameElsewhere(n.id, nodes, nodes') && Agrees(n, nodes')
    ensures CacheOk(Promote(cache, n, capacity), nodes', capacity) && Promote(cache, n, capacity)[0] == n
  {
    var rest := WithoutId(cache, n.id);
    WithoutIsOk(cache, nodes, nodes', n.id, capacity);
    forall m | m in rest ensures m.id != n.id {
      WithoutMembers(cache, n.id, m);
    }
  }

  // ---- Which nodes the cache holds ----

  /** A use of an id, by a put, a hit or a load, or the deletion of its node. */
  datatype Touch = Used(id: int) | Dropped(id: int)

  /** The other ids used since the id was last used, less those deleted since. */
  ghost function Ahead(touches: seq<Touch>, id: int): set<int> {
    if touches == [] then {}
    else
      var before := Ahead(touches[..|touches| - 1], id);
      match touches[|touches| - 1]
      case Used(x) => if x == id then {} else before + {x}
      case Dropped(x) => before - {x}
  }

  /** Entry `j` uses `x`, and since then neither is `id` used nor `x` deleted. */
  ghost predicate UsedSince(touches: seq<Touch>, x: int, id: int, j: int) {
    && 0 <= j < |touches| && touches[j] == Used(x)
    && forall k :: j <= k < |touches| ==> touches[k] != Used(id) && touches[k] != Dropped(x)
  }

  lemma {:induction false} AheadMeans(touches: seq<Touch>, id: int, x: int)
    ensures x in Ahead(touches, id) <==> exists j :: UsedSince(touches, x, id, j)
  {
    if touches == [] {
    } else {
      var init, last := touches[..|touches| - 1], |touches| - 1;
      AheadMeans(init, id, x);
      if j :| UsedSince(touches, x, id, j) {
        assert j < last ==> UsedSince(init, x, id, j);
      }
      if j :| UsedSince(init, x, id, j) && touches[last] != Used(id) && touches[last] != Dropped(x) {
        assert UsedSince(touches, x, id, j);
      }
      if touches[last] == Used(x) && x != id {
        assert UsedSince(touches, x, id, last);
      }
    }
  }

  /** The id was used, not deleted since, and never had `capacity` others ahead of it since. */
  ghost predicate Retained(touches: seq<Touch>, id: int, capacity: nat) {
    touches != [] &&
    var before := Retained(touches[..|touches| - 1], id, capacity);
    match touches[|touches| - 1]
    case Used(x) => x == id || (before && |Ahead(touches, id)| < capacity)
    case Dropped(x) => x != id && before
  }

  /** The ids in front of an id in the cache. */
  ghost function InFront(cache: seq<Node>, id: int): set<int> {
    if cache == [] || cache[0].id == id then {} else {cache[0].id} + InFront(cache[1..], id)
  }

  /** The cache holds exactly the retained ids, each behind those used since. */
  ghost predicate Reflects(cache: seq<Node>, touches: seq<Touch>, capacity: nat) {
    forall id ::
      && (Cached(cache, id).Some? <==> Retained(touches, id, capacity))
      && (Cached(cache, id).Some? ==> InFront(cache, id) == Ahead(touches, id))
  }

  lemma TouchesSnoc(touches: seq<Touch>, t: Touch)
    ensures (touches + [t])[..|touches + [t]| - 1] == touches
  {
  }

  lemma {:induction false} WithoutPlaces(cache: seq<Node>, x: int, id: int)
    requires id != x
    ensures Cached(WithoutId(cache, x), id) == Cached(cache, id)
    ensures InFront(WithoutId(cache, x), id) == InFront(cache, id) - {x}
  {
    if cache == [] {
    } else {
      WithoutPlaces(cache[1..], x, id);
      var rest := WithoutId(cache[1..], x);
      assert cache[0].id != x ==> ([cache[0]] + rest)[1..] == rest;
    }
  }

  lemma {:induction false} WithoutDrops(cache: seq<Node>, x: int)
    ensures Cached(WithoutId(cache, x), x).None?
  {
    if cache == [] {
    } else {
      WithoutDrops(cache[1..], x);
      var rest := WithoutId(cache[1..], x);
      assert cache[0].id != x ==> ([cache[0]] + rest)[1..] == rest;
    }
  }

  lemma {:induction false} InFrontIsOther(cache: seq<Node>, id: int)
    ensures id !in InFront(cache, id)
    ensures forall x :: x in InFront(cache, id) ==> exists i :: 0 <= i < |cache| && cache[i].id == x
  {
    if cache == [] || cache[0].id == id {
    } else {
      InFrontIsOther(cache[1..], id);
      forall x | x in InFront(cache, id) ensures exists i :: 0 <= i < |cache| && cache[i].id == x {
        if x == cache[0].id {
        } else {
          var i :| 0 <= i < |cache[1..]| && cache[1..][i].id == x;
          assert cache[i + 1].id == x;
        }
      }
    }
  }

  /** Cutting a list of distinct ids drops those with as many in front. */
  lemma {:induction false} CutPlaces(cache: seq<Node>, k: nat, id: int)
    requires k <= |cache| && forall i, j :: 0 <= i < j < |cache| ==> cache[i].id != cache[j].id
    ensures Cached(cache[..k], id).Some? <==> Cached(cache, id).Some? && |InFront(cache, id)| < k
    ensures Cached(cache[..k], id).Some? ==> InFront(cache[..k], id) == InFront(cache, id)
  {
    if k == 0 {
    } else if cache[0].id == id {
      assert cache[..k][0] == cache[0];
    } else {
      CutPlaces(cache[1..], k - 1, id);
      assert cache[..k][0] == cache[0] && cache[..k][1..] == cache[1..][..k - 1];
      InFrontIsOther(cache[1..], id);
      assert cache[0].id !in InFront(cache[1..], id);
    }
  }

  lemma {:induction false} InFrontIsShorter(cache: seq<Node>, id: int)
    ensures |InFront(cache, id)| <= |cache|
    ensures Cached(cache, id).Some? ==> |InFront(cache, id)| < |cache|
  {
    if cache == [] || cache[0].id == id {
    } else {
      InFrontIsShorter(cache[1..], id);
    }
  }

  /** What promotion keeps: the node itself, and the others that stay within the capacity. */
  lemma PromotePlaces(cache: seq<Node>, n: Node, capacity: nat, id: int)
    requires capacity > 0 && forall i, j :: 0 <= i < j < |cache| ==> cache[i].id != cache[j].id
    ensures var c, ahead := Promote(cache, n, capacity), InFront(cache, id) + {n.id};
      if id == n.id then Cached(c, id) == Some(n) && InFront(c, id) == {}
      else
        && (Cached(c, id).Some? <==> Cached(cache, id).Some? && |ahead| < capacity)
        && (Cached(c, id).Some? ==> Cached(c, id) == Cached(cache, id) && InFront(c, id) == ahead)
  {
    var rest := WithoutId(cache, n.id);
    var all := [n] + rest;
    assert all[1..] == rest;
    PromotedAreDistinct(cache, n);
    if id != n.id {
      WithoutPlaces(cache, n.id, id);
      assert InFront(all, id) == InFront(cache, id) + {n.id};
      InFrontIsShorter(all, id);
      if |all| > capacity {
        CutPlaces(all, capacity, id);
        CutCached(all, capacity, id);
      }
    } else if |all| > capacity {
      assert all[..capacity][0] == n;
    }
  }

  lemma {:induction false} CutCached(cache: seq<Node>, k: nat, id: int)
    requires k <= |cache|
    ensures Cached(cache[..k], id).Some? ==> Cached(cache[..k], id) == Cached(cache, id)
  {
    if k == 0 || cache[0].id == id {
    } else {
      CutCached(cache[1..], k - 1, id);
      assert cache[..k][1..] == cache[1..][..k - 1];
    }
  }

  lemma PromotedAreDistinct(cache: seq<Node>, n: Node)
    requires forall i, j :: 0 <= i < j < |cache| ==> cache[i].id != cache[j].id
    ensures var all := [n] + WithoutId(cache, n.id);
      forall i, j :: 0 <= i < j < |all| ==> all[i].id != all[j].id
  {
    WithoutIsShorter(cache, n.id);
    forall m | m in WithoutId(cache, n.id) ensures m.id != n.id {
      WithoutMembers(cache, n.id, m);
    }
  }

  lemma UseIsReflected(cache: seq<Node>, touches: seq<Touch>, n: Node, capacity: nat)
    requires Reflects(cache, touches, capacity)
    requires capacity > 0 && forall i, j :: 0 <= i < j < |cache| ==> cache[i].id != cache[j].id
    ensures Reflects(Promote(cache, n, capacity), touches + [Used(n.id)], capacity)
  {
    TouchesSnoc(touches, Used(n.id));
    forall id
      ensures var c, t := Promote(cache, n, capacity), touches + [Used(n.id)];
        && (Cached(c, id).Some? <==> Retained(t, id, capacity))
        && (Cached(c, id).Some? ==> InFront(c, id) == Ahead(t, id))
    {
      PromotePlaces(cache, n, capacity, id);
    }
  }

  lemma DropIsReflected(cache: seq<Node>, touches: seq<Touch>, x: int, capacity: nat)
    requires Reflects(cache, touches, capacity)
    ensures Reflects(WithoutId(cache, x), touches + [Dropped(x)], capacity)
  {
    TouchesSnoc(touches, Dropped(x));
    WithoutDrops(cache, x);
    forall id
      ensures var c, t := WithoutId(cache, x), touches + [Dropped(x)];
        && (Cached(c, id).Some? <==> Retained(t, id, capacity))
        && (Cached(c, id).Some? ==> InFront(c, id) == Ahead(t, id))
    {
      if id != x {
        WithoutPlaces(cache, x, id);
      }
    }
  }

  /** As long as nothing is deleted: the `capacity` most recently used ids. */
  lemma {:induction false} RetainedAreMostRecent(touches: seq<Touch>, id: int, capacity: nat)
    requires capacity > 0 && forall t :: t in touches ==> t.Used?
    ensures Retained(touches, id, capacity) <==> Used(id) in touches && |Ahead(touches, id)| < capacity
  {
    if touches == [] {
    } else {
      var init, last := touches[..|touches| - 1], touches[|touches| - 1];
      assert last in touches && forall t :: t in touches <==> t in init || t == last;
      RetainedAreMostRecent(init, id, capacity);
      SubsetSize(Ahead(init, id), Ahead(init, id) + {last.id});
    }
  }
}
