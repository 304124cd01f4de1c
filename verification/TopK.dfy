/** Keyword search: the pruned scan of one shard, and the gather over the
    sub-shards of a domain. Both are shortcuts for "sort every match by score,
    keep the first k", as exact sequences, ties included.
 */
module TopK {
  import opened StableSort
  import opened Wrappers

  /** What the scan reads of a stored node; `text` is the lower-cased content. */
  datatype Node = Node(id: int, nodeType: string, confidence: real, text: string)

  datatype Hit = Hit(node: Node, score: real)

  datatype Query = Query(terms: seq<string>, minConfidence: real, typeFilter: Option<string>)

  predicate ByScore(a: Hit, b: Hit) { a.score >= b.score }

  lemma ByScoreIsPreorder()
    ensures TotalPreorder(ByScore)
  {
  }

  predicate ContainsTerm(text: string, term: string) {
    exists i :: 0 <= i <= |text| - |term| && term <= text[i..]
  }

  function TermHits(terms: seq<string>, text: string): nat {
    if terms == [] then 0
    else TermHits(terms[..|terms| - 1], text) + (if ContainsTerm(text, terms[|terms| - 1]) then 1 else 0)
  }

  predicate Admits(q: Query, n: Node) {
    && n.confidence >= q.minConfidence
    && (q.typeFilter.Some? ==> n.nodeType == q.typeFilter.value)
    && TermHits(q.terms, n.text) > 0
  }

  function Weigh(n: Node, termHits: nat): Hit {
    Hit(n, termHits as real * n.confidence)
  }

  /** Every admitted node with its score, in scan order. */
  function Matches(scan: seq<Node>, q: Query): seq<Hit> {
    if scan == [] then []
    else Matches(scan[..|scan| - 1], q) + MatchOf(scan[|scan| - 1], q)
  }

  function MatchOf(n: Node, q: Query): seq<Hit> {
    if Admits(q, n) then [Weigh(n, TermHits(q.terms, n.text))] else []
  }

  /** The specification: the first k of the stable sort of all matches. */
  function Best(hits: seq<Hit>, k: nat): seq<Hit> {
    Take(Sort(hits, ByScore), k)
  }

  // ---- The laws the shortcuts rest on ----

  /** Two match lists with the same best k stay interchangeable as more matches arrive. */
  lemma BestCongruent(a: seq<Hit>, a': seq<Hit>, b: seq<Hit>, k: nat)
    requires Best(a, k) == Best(a', k)
    ensures Best(a + b, k) == Best(a' + b, k)
  {
    ByScoreIsPreorder();
    SortConcat(a, b, ByScore);
    SortConcat(a', b, ByScore);
    TakeMerge(Sort(a, ByScore), Sort(b, ByScore), k, k, k, ByScore);
    TakeMerge(Sort(a', ByScore), Sort(b, ByScore), k, k, k, ByScore);
  }

  /** Cutting a sorted batch to any m >= k entries keeps its best k. */
  lemma PruneIsHarmless(a: seq<Hit>, m: nat, k: nat)
    requires m >= k
    ensures Best(Take(Sort(a, ByScore), m), k) == Best(a, k)
  {
    ByScoreIsPreorder();
    SortIsStable(a, ByScore);
    SortOfSorted(Take(Sort(a, ByScore), m), ByScore);
    TakeTake(Sort(a, ByScore), m, k);
  }

  /** A sub-shard may answer with its own best k instead of all its matches. */
  lemma GatherIsHarmless(acc: seq<Hit>, all: seq<Hit>, part: seq<Hit>, k: nat)
    requires Best(acc, k) == Best(all, k)
    ensures Best(acc + Best(part, k), k) == Best(all + part, k)
  {
    ByScoreIsPreorder();
    SortIsStable(part, ByScore);
    SortOfSorted(Best(part, k), ByScore);
    SortConcat(acc, Best(part, k), ByScore);
    SortConcat(acc, part, ByScore);
    var sp := Sort(part, ByScore);
    TakeMerge(Sort(acc, ByScore), Take(sp, k), k, k, k, ByScore);
    TakeMerge(Sort(acc, ByScore), sp, k, k, k, ByScore);
    TakeTake(sp, k, k);
    BestCongruent(acc, all, part, k);
  }

  lemma BestSplits(hits: seq<Hit>, k: nat) returns (rest: seq<Hit>)
    ensures Sort(hits, ByScore) == Best(hits, k) + rest
    ensures Sorted(Best(hits, k) + rest, ByScore)
    ensures multiset(hits) == multiset(Best(hits, k)) + multiset(rest)
    ensures |Best(hits, k)| == (if |hits| <= k then |hits| else k)
  {
    var sorted := Sort(hits, ByScore);
    ByScoreIsPreorder();
    SortIsStable(hits, ByScore);
    SortPermutes(hits, ByScore);
    assert |sorted| == |hits| by {
      assert |multiset(sorted)| == |multiset(hits)|;
    }
    rest := TakeRest(sorted, k);
  }

  lemma TakeRest(s: seq<Hit>, k: nat) returns (rest: seq<Hit>)
    ensures s == Take(s, k) + rest && multiset(s) == multiset(Take(s, k)) + multiset(rest)
    ensures |Take(s, k)| == if |s| <= k then |s| else k
  {
    rest := s[|Take(s, k)|..];
    assert s == Take(s, k) + rest;
  }

  /** What the specification means to a caller: the answer holds matches only,
      none twice as often as it matched, as many as asked for where there are
      enough, best first, and nothing left out beats anything returned. */
  lemma BestIsBest(hits: seq<Hit>, k: nat)
    ensures |Best(hits, k)| == (if |hits| <= k then |hits| else k)
    ensures Sorted(Best(hits, k), ByScore)
    ensures multiset(Best(hits, k)) <= multiset(hits)
    ensures forall x, y :: x in multiset(hits) - multiset(Best(hits, k)) && y in Best(hits, k) ==>
      y.score >= x.score
  {
    var r := Best(hits, k);
    var rest := BestSplits(hits, k);
    SortedParts(r, rest);
    assert multiset(hits) - multiset(r) == multiset(rest);
    forall x: Hit, y: Hit | x in multiset(rest) && y in r ensures y.score >= x.score {
      assert x in rest;
    }
  }

  lemma SortedParts(r: seq<Hit>, rest: seq<Hit>)
    requires Sorted(r + rest, ByScore)
    ensures Sorted(r, ByScore)
    ensures forall x, y :: x in rest && y in r ==> y.score >= x.score
  {
    var s := r + rest;
    assert forall i :: 0 <= i < |r| ==> s[i] == r[i];
    forall x, y | x in rest && y in r ensures y.score >= x.score {
      var i :| 0 <= i < |rest| && rest[i] == x;
      var j :| 0 <= j < |r| && r[j] == y;
      assert ByScore(s[j], s[|r| + i]);
    }
  }

  // ---- The code ----

  method CountTerms(terms: seq<string>, text: string) returns (score: nat)
    ensures score == TermHits(terms, text)
  {
    score := 0;
    for i := 0 to |terms|
      invariant score == TermHits(terms[..i], text)
    {
      assert terms[..i + 1][..i] == terms[..i];
      if ContainsTerm(text, terms[i]) {
        score := score + 1;
      }
    }
    assert terms[..|terms|] == terms;
  }

  /** The filters and the scoring of one scanned node. */
  method ScoreNode(node: Node, q: Query) returns (m: seq<Hit>)
    ensures m == MatchOf(node, q)
  {
    if node.confidence < q.minConfidence {
      return [];
    }
    if q.typeFilter.Some? && node.nodeType != q.typeFilter.value {
      return [];
    }
    var score := CountTerms(q.terms, node.text);
    if score > 0 {
      return [Weigh(node, score)];
    }
    return [];
  }

  /** Search of one shard: never more than 10k + 1 entries in memory. */
  method Search(scan: seq<Node>, q: Query, k: nat) returns (scored: seq<Hit>)
    ensures scored == Best(Matches(scan, q), k)
  {
    scored := [];
    if q.terms == [] {
      NoTermsNoMatches(scan, q);
      return;
    }
    for i := 0 to |scan|
      invariant |scored| <= 10 * k
      invariant Best(scored, k) == Best(Matches(scan[..i], q), k)
    {
      BestStep(scored, scan, i, q, k);
      var m := ScoreNode(scan[i], q);
      scored := scored + m;
      if |scored| > 10 * k {
        PruneIsHarmless(scored, 2 * k, k);
        scored := Take(Sort(scored, ByScore), 2 * k);
      }
    }
    assert scan[..|scan|] == scan;
    scored := Take(Sort(scored, ByScore), k);
  }

  lemma MatchesStep(scan: seq<Node>, i: nat, q: Query)
    requires i < |scan|
    ensures Matches(scan[..i + 1], q) == Matches(scan[..i], q) + MatchOf(scan[i], q)
  {
    assert scan[..i + 1][..i] == scan[..i];
  }

  lemma BestStep(held: seq<Hit>, scan: seq<Node>, i: nat, q: Query, k: nat)
    requires i < |scan| && Best(held, k) == Best(Matches(scan[..i], q), k)
    ensures Best(Matches(scan[..i + 1], q), k) == Best(held + MatchOf(scan[i], q), k)
  {
    MatchesStep(scan, i, q);
    BestCongruent(held, Matches(scan[..i], q), MatchOf(scan[i], q), k);
  }

  lemma {:induction false} NoTermsNoMatches(scan: seq<Node>, q: Query)
    requires q.terms == []
    ensures Matches(scan, q) == []
  {
    if scan == [] {
    } else {
      NoTermsNoMatches(scan[..|scan| - 1], q);
    }
  }

  // ---- What a match is, index by index ----

  /** The indices of the terms that are a substring of the text. */
  ghost function TermsIn(terms: seq<string>, text: string): set<nat> {
    set i: nat | i < |terms| && exists p, e :: 0 <= p <= e <= |text| && text[p..e] == terms[i]
  }

  lemma ContainsMeans(text: string, term: string)
    ensures ContainsTerm(text, term) <==> exists p, e :: 0 <= p <= e <= |text| && text[p..e] == term
  {
    if ContainsTerm(text, term) {
      var i :| 0 <= i <= |text| - |term| && term <= text[i..];
      assert text[i..i + |term|] == term;
    }
    if p, e :| 0 <= p <= e <= |text| && text[p..e] == term {
      assert text[p..][..|term|] == term;
    }
  }

  lemma {:induction false} TermHitsMeans(terms: seq<string>, text: string)
    ensures TermHits(terms, text) == |TermsIn(terms, text)|
  {
    if terms == [] {
    } else {
      var init, last: nat := terms[..|terms| - 1], |terms| - 1;
      TermHitsMeans(init, text);
      ContainsMeans(text, terms[last]);
      assert TermsIn(terms, text) == TermsIn(init, text) + if ContainsTerm(text, terms[last]) then {last} else {};
    }
  }

  lemma SameProduct(a: nat, b: nat, x: real)
    requires a == b
    ensures a as real * x == b as real * x
  {
  }

  /** One scanned node: it matches when it is confident enough, of the wanted type, and contains a
      term, and scores its confidence for every term it contains. */
  lemma MatchMeans(n: Node, q: Query, score: real)
    requires score == |TermsIn(q.terms, n.text)| as real * n.confidence
    ensures MatchOf(n, q) ==
      if n.confidence >= q.minConfidence && (q.typeFilter.Some? ==> n.nodeType == q.typeFilter.value)
         && TermsIn(q.terms, n.text) != {}
      then [Hit(n, score)] else []
  {
    TermHitsMeans(q.terms, n.text);
    SameProduct(TermHits(q.terms, n.text), |TermsIn(q.terms, n.text)|, n.confidence);
    assert Weigh(n, TermHits(q.terms, n.text)) == Hit(n, score);
    assert Admits(q, n) ==> MatchOf(n, q) == [Hit(n, score)];
    assert TermsIn(q.terms, n.text) != {} <==> TermHits(q.terms, n.text) > 0;
  }

  lemma {:induction false} MatchesMean(scan: seq<Node>, q: Query, h: Hit)
    ensures h in Matches(scan, q) <==> h.node in scan && h in MatchOf(h.node, q)
  {
    if scan == [] {
    } else {
      var init, last := scan[..|scan| - 1], scan[|scan| - 1];
      MatchesMean(init, q, h);
      assert forall n :: n in scan <==> n in init || n == last;
    }
  }

  /** The matches of a scan, in the fields of its nodes. */
  lemma MatchedIff(scan: seq<Node>, q: Query, h: Hit)
    ensures h in Matches(scan, q) <==>
      && h.node in scan && h.node.confidence >= q.minConfidence
      && (q.typeFilter.Some? ==> h.node.nodeType == q.typeFilter.value)
      && TermsIn(q.terms, h.node.text) != {}
      && h.score == |TermsIn(q.terms, h.node.text)| as real * h.node.confidence
  {
    MatchesMean(scan, q, h);
    MatchOfMeans(q, h);
  }

  lemma MatchOfMeans(q: Query, h: Hit)
    ensures h in MatchOf(h.node, q) <==>
      && h.node.confidence >= q.minConfidence
      && (q.typeFilter.Some? ==> h.node.nodeType == q.typeFilter.value)
      && TermsIn(q.terms, h.node.text) != {}
      && h.score == |TermsIn(q.terms, h.node.text)| as real * h.node.confidence
  {
    var score := |TermsIn(q.terms, h.node.text)| as real * h.node.confidence;
    MatchMeans(h.node, q, score);
    assert h == Hit(h.node, score) <==> h.score == score;
  }

  lemma AnsweredIsMatched(scan: seq<Node>, q: Query, k: nat, h: Hit)
    requires h in Best(Matches(scan, q), k)
    ensures h in Matches(scan, q)
  {
    BestIsBest(Matches(scan, q), k);
    assert h in multiset(Best(Matches(scan, q), k));
  }

  /** Every hit of an answer, in full. */
  lemma AnswerMeans(scan: seq<Node>, q: Query, k: nat, h: Hit)
    requires h in Best(Matches(scan, q), k)
    ensures h.node in scan && h.node.confidence >= q.minConfidence
    ensures q.typeFilter.Some? ==> h.node.nodeType == q.typeFilter.value
    ensures TermsIn(q.terms, h.node.text) != {}
    ensures h.score == |TermsIn(q.terms, h.node.text)| as real * h.node.confidence
  {
    AnsweredIsMatched(scan, q, k, h);
    MatchedIff(scan, q, h);
  }

  // ---- Domains and sub-shards ----

  /** The numbers of the shards on disk. */
  lemma ShardNumbers(sub: nat)
    ensures ShardId(Keter, sub) == sub && ShardId(Chochmah, sub) == 256 + sub && ShardId(Binah, sub) == 512 + sub
    ensures ShardId(Chesed, sub) == 768 + sub && ShardId(Gevurah, sub) == 1024 + sub
    ensures ShardId(Tiferet, sub) == 1280 + sub && ShardId(Netzach, sub) == 1536 + sub
    ensures ShardId(Hod, sub) == 1792 + sub && ShardId(Yesod, sub) == 2048 + sub && ShardId(Malkuth, sub) == 2304 + sub
    ensures ShardId(General, sub) == 2560 + sub && ShardId(CrossDomain, sub) == 2816 + sub
  {
  }

  datatype Domain =
    | Keter | Chochmah | Binah | Chesed | Gevurah | Tiferet
    | Netzach | Hod | Yesod | Malkuth | General | CrossDomain

  const MAX_SUB_SHARDS: nat := 256

  function BaseId(d: Domain): nat {
    match d
    case Keter => 0
    case Chochmah => 1
    case Binah => 2
    case Chesed => 3
    case Gevurah => 4
    case Tiferet => 5
    case Netzach => 6
    case Hod => 7
    case Yesod => 8
    case Malkuth => 9
    case General => 10
    case CrossDomain => 11
  }

  function ShardId(d: Domain, sub: nat): nat {
    BaseId(d) * MAX_SUB_SHARDS + sub
  }

  function SubShard(id: int, subShards: nat): nat
    requires 1 <= subShards
  {
    if subShards > 1 then (if id < 0 then -id else id) % subShards else 0
  }

  function Route(d: Domain, id: int, subShards: nat): nat
    requires 1 <= subShards
  {
    ShardId(d, SubShard(id, subShards))
  }

  /** The sub-shard of a node is its absolute id modulo their number. */
  lemma RouteMeans(d: Domain, id: int, subShards: nat)
    requires 1 <= subShards
    ensures Route(d, id, subShards) == ShardId(d, (if id < 0 then -id else id) % subShards)
  {
    assert (if id < 0 then -id else id) % 1 == 0;
  }

  /** The scans of the sub-shards of `d` in order; a missing shard counts as empty. */
  function DomainScan(shards: map<nat, seq<Node>>, d: Domain, subShards: nat): seq<Node> {
    if subShards == 0 then []
    else
      DomainScan(shards, d, subShards - 1)
      + (if ShardId(d, subShards - 1) in shards then shards[ShardId(d, subShards - 1)] else [])
  }

  lemma {:induction false} MatchesConcat(a: seq<Node>, b: seq<Node>, q: Query)
    ensures Matches(a + b, q) == Matches(a, q) + Matches(b, q)
  {
    if b == [] {
      assert a + b == a;
    } else {
      assert (a + b)[..|a + b| - 1] == a + b[..|b| - 1];
      MatchesConcat(a, b[..|b| - 1], q);
    }
  }

  /** Scatter-gather over the sub-shards of one domain. */
  method SearchDomain(shards: map<nat, seq<Node>>, d: Domain, subShards: nat, q: Query, k: nat)
    returns (all: seq<Hit>)
    requires 1 <= subShards <= MAX_SUB_SHARDS
    ensures all == Best(Matches(DomainScan(shards, d, subShards), q), k)
  {
    all := [];
    for sub := 0 to subShards
      invariant Best(all, k) == Best(Matches(DomainScan(shards, d, sub), q), k)
    {
      var shardId := ShardId(d, sub);
      if shardId in shards {
        var results := Search(shards[shardId], q, k);
        GatherIsHarmless(all, Matches(DomainScan(shards, d, sub), q), Matches(shards[shardId], q), k);
        MatchesConcat(DomainScan(shards, d, sub), shards[shardId], q);
        all := all + results;
      } else {
        assert DomainScan(shards, d, sub + 1) == DomainScan(shards, d, sub);
      }
    }
    all := Take(Sort(all, ByScore), k);
  }

  /** Every shard holds only nodes that `Route` sends there. */
  ghost predicate Routed(shards: map<nat, seq<Node>>, domainOf: Node -> Domain, subShards: nat)
    requires 1 <= subShards
  {
    forall s, i :: s in shards && 0 <= i < |shards[s]| ==>
      s == Route(domainOf(shards[s][i]), shards[s][i].id, subShards)
  }

  lemma {:induction false} InDomainScan(shards: map<nat, seq<Node>>, d: Domain, subShards: nat, n: Node)
    ensures n in DomainScan(shards, d, subShards) <==>
      exists sub :: 0 <= sub < subShards && ShardId(d, sub) in shards && n in shards[ShardId(d, sub)]
  {
    if subShards == 0 {
    } else {
      InDomainScan(shards, d, subShards - 1, n);
    }
  }

  /** A domain search scans exactly the stored nodes of that domain: the shard
      numbers of different domains never meet, and no sub-shard is skipped. */
  lemma DomainSearchIsComplete(
    shards: map<nat, seq<Node>>, domainOf: Node -> Domain, d: Domain, subShards: nat, n: Node)
    requires 1 <= subShards <= MAX_SUB_SHARDS
    requires Routed(shards, domainOf, subShards)
    ensures n in DomainScan(shards, d, subShards) <==>
      domainOf(n) == d && exists s :: s in shards && n in shards[s]
  {
    InDomainScan(shards, d, subShards, n);
    if n in DomainScan(shards, d, subShards) {
      var sub :| 0 <= sub < subShards && ShardId(d, sub) in shards && n in shards[ShardId(d, sub)];
      assert ShardId(d, sub) == ShardId(domainOf(n), SubShard(n.id, subShards));
      assert BaseId(d) == BaseId(domainOf(n));
    }
    if domainOf(n) == d && exists s :: s in shards && n in shards[s] {
      var s :| s in shards && n in shards[s];
      assert s == ShardId(d, SubShard(n.id, subShards));
    }
  }
}
