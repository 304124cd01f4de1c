# Verified model of the graph shards, the exchange and the payout sidecar

This project models the parts of the repository whose answers are computed by something
cleverer than their meaning, and proves that the two agree. A reader can take the following
from it.

**Graph shards** (`aether-graph-shard`)

- *Keyword search.* A scan that, past 10k entries, sorts and keeps 2k, and a gather of
  per-sub-shard top-k lists, both return exactly the first k of the stable sort of all
  matches, as sequences, ties included (`TopK`, on `StableSort`).
- *Vector index.* One layer search ends in a local optimum despite its early exit and its
  evictions, and is exhaustive when `ef` covers what is reachable. Insertion keeps the layered
  graph sound, the greedy descent ends in a local minimum, and the flat search is the k nearest
  of the map from live id to latest embedding. Every edge is there both ways and every inserted
  position leads to every other for as long as no list is full; with nothing removed and a wide
  enough search the graph search is then exact. An answer holds a removed vector exactly when the
  entry point was removed, its id is one that answers name, and the answer has room for all that
  the search looks for or can reach (`LayerSearch`, `HnswGraph`, `Connectivity`, `VectorIndex`).
- *Merkle trees.* Proofs exist for exactly the stored ids and verify; an accepted proof shows
  the node its turns and its length point to, unless a pair of hashes computed for the tree or
  the check collides. Two lists of any lengths have one root exactly when the expanded tree of the
  deeper one has the expanded leaves of the other as a level. The cached root and, after a
  recomputation, every cached level are those of the current leaves (`MerkleTree`,
  `IncrementalMerkle`).
- *Store.* The cache never changes an answer and holds exactly what the history of uses and
  deletions says, the tree mirrors the node table whatever the history, and a rebuild restores
  a tree that a reopened store starts without (`NodeCache`, `ShardStore`).
- *Edges.* Keys are injective for every type text; the cascade deletes the incident edges,
  exactly when no other stored type spells the node's `:id:` pattern; after any run, cascades
  included, a read returns exactly what the history of writes says (`EdgeKeys`, `EdgeIndex`).
- *Neighbour search.* The bounded breadth-first search returns min(limit, R) distinct nodes in
  order of true hop distance, and omits none that is nearer (`NeighborSearch`).

**Exchange** (`qbc-exchange`)

- *Matching engine.* Over every run of orders and cancellations both sides stay in price-time
  priority, not crossed, mirrored in the order table and in step with the trade log up to the
  1e-12 dust; every taker consumes a prefix of the book, gets all there is and pays no more
  than any other allocation would cost (`Matching`, `OrderBook`, `OrderBookRuns`). What that
  means to a client is stated in the fields of orders and trades alone (`OrderBookClient`). The depth
  snapshot agrees with the book, and a level of it is short exactly when the first order behind
  the scan has its price (`DepthSnapshot`).
- *Synthetic collateral.* Over every run of mints, burns and sweeps a position is never
  liquidated up to 1.5/(0.997*1.1) times its lowest mint price and always above that multiple
  of its highest; recorded supply drifts by at most one dust per closing burn, and recorded
  collateral by at most that dust at 1.5/0.997 times the position's highest mint price
  (`Synthetic`, `CollateralDrift`).
- *Balances.* Over every run QUSD and every other asset are conserved and no balance goes
  negative (`Ledger`, on `MapSums`).

**Payout sidecar** (`aikgs-sidecar`)

- *Disbursements.* In every interleaving of handlers, spawned payouts and the retry task, with
  any database fault, lost answer or crash between steps: one sender per key, at most one
  reported payout, no send after it, at most 1 + max_retries sends, and the last bound is
  reached (`DisbursementDb`, `Disbursement`). The handlers and the retry loop, written as code
  that others interrupt before every call, produce only such runs (`Sidecar`). The price is
  known exactly: a step leaves a payout pending for ever in six cases and no others, a pending
  payout has exactly one sender if and only if no step of the run was one of them, and it was
  paid if and only if the node's report was lost with its sender (`Abandonment`).

**Indexer** (`indexer`)

- *Supply.* The era loop is the per-block sum, grows with every block and stays below 652
  million (`Supply`).

## How the model is built

Code that changes state in place is a class or a method with a loop, proved against functions
on values; the laws are lemmas about those functions and about runs of them. What the program
takes from elsewhere is a parameter: hash and distance functions, the random level of an
inserted vector, oracle prices, the clock, available funds, iteration orders of hash tables and
database scans, database faults and node answers. 64-bit floats are reals; the one place where
NaN carries meaning, a removed vector, has it as a value of its own (`LayerSearch.Float`).
`LayerSearch` and `VectorIndex` describe the binary heaps of the standard library by the
ascending sequence of their contents. `Wrappers`, `Sequences` and `Tolerance` hold what several
modules share. That the Merkle tree rebuilds every level on a change, and that nothing reads the
cached levels, is what the code does, not something proved.

What the proofs show that the documentation does not say, or says otherwise; the model
follows the code:

- the README gives a maximum supply of 3.3 billion; the emission schedule of the indexer never
  reaches 652 million (`Supply.BelowCap`);
- a Merkle root binds neither the number of leaves nor the depth of the tree, whatever the hash
  (`MerkleTree.NoLengthIsBound`, `MerkleTree.InnerLevelHasRoot`); what it binds is
  `MerkleTree.SameRootIff`;
- a search of the vector index can answer a removed vector (`VectorIndex.RemovedVectorIsAnswered`);
- a payout that the node confirmed can stay pending for ever (`Abandonment.PaidButPending`);
- a `disburse` call whose reason was used before is answered with the outcome of the earlier
  payment, whatever its own recipient and amount (`Disbursement.SuccessOfAnother`);
- after losing the race to insert a row, `disburse` would send if it found no row; that path
  is never taken (`Disbursement.LostRaceNeverSends`);
- a market order that is not filled keeps the status of an open order but is never on the book
  (`OrderBookRuns.MarketRemainderIsNotOnBook`, `OrderBookRuns.MarketOrderStaysOpen`);
- `node_count` also counts overwrites: it is the number of nodes plus the overwrites since the
  store was opened, and every operation states how many it adds
  (`ShardStore.ShardStore.PutNode`, `ShardStore.ShardStore.UpdateConfidence`);
- a colon in an edge type can make the cascade delete an edge between two other nodes
  (`EdgeKeys.ColonInTypeMisleads`), and neighbours keep listing a deleted edge, with
  timestamp 0 (`EdgeIndex.CascadeLeavesEcho`).

`dafny verify dfyconfig.toml` checks the whole project.

## Model

| member | source | states |
|---|---|---|
| StableSort.SortIsStable | aether-graph-shard/src/storage.rs:523-525 | the modelled sort is sorted and keeps every class of ties in its order |
| StableSort.StableSortIsUnique | aether-graph-shard/src/storage.rs:523-525 | nothing else is: any two stable sorts of a list are equal, so the model is the library's `sort_by` |
| StableSort.SortConcat | aether-graph-shard/src/router.rs:184-197 | sorting a concatenation is the left-preferring merge of the sorted halves |
| StableSort.TakeMerge | aether-graph-shard/src/router.rs:184-197 | the first k of a merge depend only on the first k of each side |
| TopK.CountTerms | aether-graph-shard/src/storage.rs:510-515 | the score counts the query terms the text contains |
| TopK.ScoreNode | aether-graph-shard/src/storage.rs:494-520 | a node is a match exactly when it passes both filters and contains a term; its score is its confidence times the number of terms it contains |
| TopK.Search | aether-graph-shard/src/storage.rs:468-534 | the pruned scan returns the first k of the stable sort of all matches |
| TopK.PruneIsHarmless | aether-graph-shard/src/storage.rs:522-527 | keeping the best m >= k of a batch keeps its best k |
| TopK.BestCongruent | aether-graph-shard/src/storage.rs:486-528 | lists with the same best k stay interchangeable as matches arrive |
| TopK.GatherIsHarmless | aether-graph-shard/src/router.rs:184-197 | a sub-shard may answer with its best k instead of all its matches |
| TopK.BestIsBest | aether-graph-shard/src/storage.rs:530-533 | the answer has min(k, matches) entries, best first, each as often as it matched, and nothing left out beats anything returned |
| TopK.MatchedIff | aether-graph-shard/src/storage.rs:494-520 | a hit is a match exactly when its node was scanned, its confidence is at least the minimum, its type equals the filter if there is one, some term is a substring of its text, and its score is the confidence times the number of indices whose term is one |
| TopK.AnswerMeans | aether-graph-shard/src/storage.rs:468-534 | so every hit of an answer is such a node with such a score |
| TopK.SearchDomain | aether-graph-shard/src/router.rs:177-198 | scatter-gather over the sub-shards equals one top-k over all their matches |
| TopK.ShardNumbers | aether-graph-shard/src/types.rs:61-76 | the shard numbers of the twelve domains, 256 apart |
| TopK.RouteMeans | aether-graph-shard/src/router.rs:94-102 | the sub-shard of a node is its absolute id modulo their number |
| TopK.DomainSearchIsComplete | aether-graph-shard/src/router.rs:89-102 | with nodes stored where routing sends them, a domain search scans exactly the stored nodes of the domain |
| LayerSearch.Consider | aether-graph-shard/src/vector_index.rs:383-408 | one neighbour: skipped, pushed, or swapped for the farthest result, keeping the result heap the closest of what was looked at |
| LayerSearch.Expand | aether-graph-shard/src/vector_index.rs:381-410 | all neighbours of a popped candidate are looked at, each once |
| LayerSearch.Drain | aether-graph-shard/src/vector_index.rs:372-412 | the queue loop stops with no candidate, or with a full result closer than all of them |
| LayerSearch.SearchLayer | aether-graph-shard/src/vector_index.rs:344-417 | the result is sorted, without repeats, of at most max(ef, 1) positions, the closest of all evaluated, each expanded, all reachable; empty for an entry outside the buffer |
| LayerSearch.LocalOptimum | aether-graph-shard/src/vector_index.rs:374-378 | from a live entry every live neighbour of a returned position is returned, or the result is full of positions at least as close |
| LayerSearch.RemovedIffEntryRemoved | aether-graph-shard/src/vector_index.rs:355-370 | a removed position is returned exactly when the search started at one |
| LayerSearch.FoundSize | aether-graph-shard/src/vector_index.rs:374-408 | from any entry a search returns min(max(ef, 1), reachable) positions |
| LayerSearch.WideSearchIsExhaustive | aether-graph-shard/src/vector_index.rs:362-416 | when ef covers the positions reachable from the entry, removed or not, exactly those are returned |
| HnswGraph.Scan | aether-graph-shard/src/vector_index.rs:254-266 | one pass moves only to strictly closer neighbours and ends no farther than any of them |
| HnswGraph.Descend | aether-graph-shard/src/vector_index.rs:251-270 | the greedy loop terminates at a local minimum, strictly closer than its start, along steps of which each goes to a neighbour no other neighbour is closer than |
| HnswGraph.Prune | aether-graph-shard/src/vector_index.rs:308-324 | all entries stay when they fit, else exactly 2*max_connections distinct old ones; when all are live they are the closest, in order |
| HnswGraph.AddReverse | aether-graph-shard/src/vector_index.rs:298-328 | a list with room gets the new position at its end; a full one becomes the closest part of itself and the new position; no other list changes |
| HnswGraph.Connect | aether-graph-shard/src/vector_index.rs:290-328 | the new position gets the selection, every selected one its reverse edge as above, and every other list stays; the layer stays sound |
| Connectivity.LinkKeepsJoined | aether-graph-shard/src/vector_index.rs:290-305 | linking a position both ways without cutting a list keeps the layer symmetric and connected |
| Connectivity.GrowthKeepsJoined | aether-graph-shard/src/vector_index.rs:216-341 | an insertion that cuts no list keeps every layer symmetric, and every position of a layer leading to every other |
| Connectivity.CutLeavesFull | aether-graph-shard/src/vector_index.rs:300-324 | a cut leaves a full list, and a full list stays full: where no list is full none was ever cut |
| Connectivity.JoinedIsReachable | aether-graph-shard/src/vector_index.rs:344-417 | in a connected base layer without removed positions a search can find exactly the inserted positions |
| VectorIndex.EdgesAreSound | aether-graph-shard/src/vector_index.rs:216-341 | an edge of layer l joins two distinct inserted positions of level at least l; lists have no repeats and at most 2*max_connections entries |
| VectorIndex.PadLayer | aether-graph-shard/src/vector_index.rs:227-232 | slots up to the position exist, the new ones empty |
| VectorIndex.InsertInLayer | aether-graph-shard/src/vector_index.rs:279-333 | the list of the new position is the closest part of a layer search from the given start, every reverse edge is there, no other list changes, the layer stays sound, and the next start is the head of the new list, or the same start if that is empty |
| VectorIndex.UpdateMeans | aether-graph-shard/src/vector_index.rs:98-101 | overwriting a slot updates the meant map at one id |
| VectorIndex.AppendMeans | aether-graph-shard/src/vector_index.rs:102-107 | appending a slot adds the id to the meant map, over a removed one too |
| VectorIndex.RemoveMeans | aether-graph-shard/src/vector_index.rs:120-133 | removing an id removes it from the meant map and nothing else |
| VectorIndex.ShardVectorIndex.constructor | aether-graph-shard/src/vector_index.rs:67-78 | a new index is valid, stands for the empty map, and has no position, layer or entry point |
| VectorIndex.ShardVectorIndex.Upsert | aether-graph-shard/src/vector_index.rs:89-117 | a wrong dimension changes nothing; an update changes one vector and no list; a new id gets the next position and, past the threshold, its place in the graph; the meant map gets the embedding |
| VectorIndex.ShardVectorIndex.Remove | aether-graph-shard/src/vector_index.rs:120-133 | the meant map loses the id, its vector is overwritten; graph and positions stay |
| VectorIndex.ShardVectorIndex.HnswInsert | aether-graph-shard/src/vector_index.rs:216-341 | the linking search starts where the greedy descent from the entry point ends, and one layer down at the head of the list above; in each layer the position is linked, both ways, to the closest part of a search of the old layer from that start; every other list stays, every layer stays sound, and the entry point, top level and levels are as stated |
| VectorIndex.ShardVectorIndex.DescendTo | aether-graph-shard/src/vector_index.rs:245-271 | layer by layer from the top the descent stops at a local minimum greedy steps lead to, and ends at a position of the needed level |
| VectorIndex.ShardVectorIndex.Link | aether-graph-shard/src/vector_index.rs:273-334 | every layer from min(level, max level) down is linked so, the first from the given start, the next from the head of the list above; the layers above stay |
| VectorIndex.FirstStartMeans | aether-graph-shard/src/vector_index.rs:245-271 | the first start of an insertion is the entry point or strictly closer; the entry point when the new level reaches its level, and otherwise no neighbour of the start in the layer above the new level is closer |
| VectorIndex.NextStartMeans | aether-graph-shard/src/vector_index.rs:330-333 | the start one layer down is the head of the new list, or the same start if the list is empty |
| VectorIndex.LinksMean | aether-graph-shard/src/vector_index.rs:281-328 | the new list is the first max_connections results of a search of width ef_construction from the start; each of them lists the new position, at the end where there was room and among the closest otherwise; no other list changed |
| VectorIndex.ShardVectorIndex.HnswSearch | aether-graph-shard/src/vector_index.rs:420-475 | names of the closest of one base-layer search that starts where the greedy descent from the entry point ends |
| VectorIndex.ShardVectorIndex.LiveEntryAnswers | aether-graph-shard/src/vector_index.rs:433-474 | with a live entry point every answer is a live id at its latest distance, each once, sorted |
| VectorIndex.ShardVectorIndex.RemovedAnswerIff | aether-graph-shard/src/vector_index.rs:420-475 | a removed vector is answered exactly when the entry point was removed, its id is non-negative, and top_k covers ef_search or all that is reachable from it |
| VectorIndex.RemovedVectorIsAnswered | aether-graph-shard/src/vector_index.rs:89-156 | insert one vector past the threshold, remove it, search: the answer holds the removed vector, for every positive top_k |
| VectorIndex.ShardVectorIndex.CoveredSearchIsExact | aether-graph-shard/src/vector_index.rs:420-475 | while no list is full, nothing inserted was removed or is without a name, and ef_search covers the inserted positions, the graph search answers exactly the k nearest inserted ids |
| VectorIndex.ShardVectorIndex.Search | aether-graph-shard/src/vector_index.rs:136-156 | exact k nearest below the threshold or without a graph; otherwise the answer of a base-layer search, or exact k nearest when that is empty; sound, distinct and sorted from a live entry; a removed vector, and exactness over the graph, exactly under the conditions above; nothing for a wrong dimension |
| VectorIndex.ShardVectorIndex.FlatSearch | aether-graph-shard/src/vector_index.rs:159-201 | the k nearest ids of the meant map, sorted, each once, none omitted but for k at least as close |
| VectorIndex.NearestMeans | aether-graph-shard/src/vector_index.rs:159-201 | an exact answer in distances: nearest first, and nothing left out is nearer |
| VectorIndex.Offer | aether-graph-shard/src/vector_index.rs:172-188 | the bounded heap stays the k closest of the live positions scanned |
| MerkleTree.NextLevel | aether-graph-shard/src/merkle.rs:109-120 | one pass over chunks of two pairs neighbours and the odd last node with itself |
| MerkleTree.BuildTree | aether-graph-shard/src/merkle.rs:100-124 | the loop computes the recursive root |
| MerkleTree.MakeProof | aether-graph-shard/src/merkle.rs:171-205 | the loop collects the sibling of every level, with its side |
| MerkleTree.VerifyProof | aether-graph-shard/src/merkle.rs:208-222 | accepts exactly when folding the siblings over the leaf gives the root |
| MerkleTree.SmallTrees | aether-graph-shard/src/merkle.rs:100-124 | no leaf gives 32 zero bytes, one leaf itself, a pair is hashed left to right, an odd last node with itself |
| MerkleTree.SmallProofs | aether-graph-shard/src/merkle.rs:171-205 | the proofs of trees of up to three leaves, with their sides |
| MerkleTree.ProofVerifies | aether-graph-shard/src/merkle.rs:167-222 | every proof folds to the root and has one step per level |
| MerkleTree.RootOfExpansion | aether-graph-shard/src/merkle.rs:111-118 | a tree has the root of the perfect tree in which its duplicated leaves are written out |
| MerkleTree.RootBindsList | aether-graph-shard/src/merkle.rs:100-124 | without collisions, lists of one length with one root are equal |
| MerkleTree.SameRootIff | aether-graph-shard/src/merkle.rs:100-124 | without collisions, two lists of any lengths, empty or not, share a root exactly when the expanded deeper tree has the expanded leaves of the other as a level |
| MerkleTree.LengthIsNotBound | aether-graph-shard/src/merkle.rs:114-117 | repeating an odd last leaf keeps the root |
| MerkleTree.NoLengthIsBound | aether-graph-shard/src/merkle.rs:100-124 | for any two positive lengths and any hash, some lists of these lengths share a root |
| MerkleTree.InnerLevelHasRoot | aether-graph-shard/src/merkle.rs:109-123 | every inner level of a tree, taken as leaves, has the root of the tree |
| MerkleTree.DepthIsNotBound | aether-graph-shard/src/merkle.rs:104-106 | an inner hash as only leaf has the root of the tree below it |
| MerkleTree.AcceptedProofShows | aether-graph-shard/src/merkle.rs:208-222 | without collisions an accepted proof of any length shows a node of the level it reaches down to, the one its turns point to; past the leaves, a chain of hashes that ends in a leaf |
| MerkleTree.AcceptedLeafIsStored | aether-graph-shard/src/merkle.rs:208-222 | so with one step per level the leaf is one of the leaves, and the one at its slot when the slot is real |
| IncrementalMerkle.EntriesDetermineList | aether-graph-shard/src/merkle.rs:16 | the id-ordered list of leaves is a function of its entries |
| IncrementalMerkle.PutEntries | aether-graph-shard/src/merkle.rs:37-42 | insertion replaces the leaf of its id and keeps every other |
| IncrementalMerkle.DeleteEntries | aether-graph-shard/src/merkle.rs:45-52 | removal takes the leaf of its id and keeps every other |
| MerkleTree.TopLevelIsRoot | aether-graph-shard/src/merkle.rs:139-153 | the last cached level is the root alone |
| IncrementalMerkle.IncrementalMerkle.constructor | aether-graph-shard/src/merkle.rs:27-34 | a new tree is empty and dirty |
| IncrementalMerkle.IncrementalMerkle.Insert | aether-graph-shard/src/merkle.rs:37-42 | the leaves are updated, the cached root is dropped, the cached levels stay |
| IncrementalMerkle.IncrementalMerkle.Remove | aether-graph-shard/src/merkle.rs:45-52 | answers whether the leaf was there; an absent one leaves leaves and caches alone, a present one drops the cached root |
| IncrementalMerkle.IncrementalMerkle.CurrentRoot | aether-graph-shard/src/merkle.rs:57-79 | cached or not, the root of the current leaves |
| IncrementalMerkle.IncrementalMerkle.CacheLevel | aether-graph-shard/src/merkle.rs:134-136 | one level is cached cell by cell, and nothing else |
| IncrementalMerkle.IncrementalMerkle.CacheTreeLevels | aether-graph-shard/src/merkle.rs:127-154 | the cache holds exactly the cells of every level up to the root |
| IncrementalMerkle.IncrementalMerkle.ProofFor | aether-graph-shard/src/merkle.rs:167-205 | a proof exists exactly for stored ids, folds to the current root and has one step per level |
| IncrementalMerkle.GlobalMerkle.UpdateShard | aether-graph-shard/src/merkle.rs:247-250 | the shard's root is replaced and the cached global root dropped |
| IncrementalMerkle.GlobalMerkle.GlobalRoot | aether-graph-shard/src/merkle.rs:253-262 | cached or not, the root over the shard roots in id order |
| NodeCache.PromoteIsOk | aether-graph-shard/src/storage.rs:156-159 | promotion keeps the cache within capacity, without repeats and equal to the table |
| NodeCache.PromotePlaces | aether-graph-shard/src/storage.rs:156-159 | promotion puts the node first and keeps exactly the others that still fit, in order |
| NodeCache.UseIsReflected | aether-graph-shard/src/storage.rs:156-159 | over every use the cache holds exactly the ids that never had a capacity of others used after them |
| NodeCache.DropIsReflected | aether-graph-shard/src/storage.rs:268-271 | so it does over every deletion, after which those behind move up |
| NodeCache.RetainedAreMostRecent | aether-graph-shard/src/storage.rs:188-194 | as long as nothing is deleted these are the capacity most recently used ids |
| NodeCache.AheadMeans | aether-graph-shard/src/storage.rs:156-159 | an id counts as used after another exactly when some use of it follows the last use of the other and its own last deletion |
| ShardStore.LeavesAreCanonical | aether-graph-shard/src/storage.rs:161-165 | leaves that mirror the table are a function of it |
| ShardStore.RootDependsOnTableOnly | aether-graph-shard/src/storage.rs:569-586 | two stores that reached the same table have the same root |
| ShardStore.ShardStore.Open | aether-graph-shard/src/storage.rs:94-118 | an opened store is valid, counts its nodes and no overwrite, has an empty tree and cache, and a zero capacity means 100000 |
| ShardStore.ShardStore.PutNode | aether-graph-shard/src/storage.rs:148-182 | the table gets the node, the cache gets it in front, the tree follows, and the count goes up even when the id was there |
| ShardStore.ShardStore.GetNode | aether-graph-shard/src/storage.rs:185-213 | answers as the table alone would, counts a hit exactly when the history of uses retains the id and a miss otherwise, and makes the node the most recent |
| ShardStore.ShardStore.GetNodes | aether-graph-shard/src/storage.rs:216-249 | every stored node as often as its id is asked for, and nothing else; every id is counted once |
| ShardStore.ShardStore.UpdateConfidence | aether-graph-shard/src/storage.rs:319-335 | the confidence becomes the given one cut to [0, 1], the block the given one, the reference count one more, and nothing else of the node changes; the old confidence returned, one overwrite counted; nothing for an unknown id |
| ShardStore.ShardStore.DeleteNode | aether-graph-shard/src/storage.rs:252-316 | node, cache entry and leaf go, edges exactly on request, the edge count is right and no overwrite is counted |
| ShardStore.ShardStore.LowValue | aether-graph-shard/src/storage.rs:618-625 | the scan lists exactly the nodes valued below the threshold, each once |
| ShardStore.ShardStore.Compact | aether-graph-shard/src/storage.rs:614-656 | exactly those nodes are deleted and counted, in table, cache and tree |
| ShardStore.KeptMeans | aether-graph-shard/src/storage.rs:618-625 | a node stays exactly when its value is not below the threshold, unchanged |
| ShardStore.ShardStore.MerkleRoot | aether-graph-shard/src/storage.rs:569-572 | the root of the current leaves, which stay as they are |
| ShardStore.ShardStore.RebuildMerkle | aether-graph-shard/src/storage.rs:574-586 | afterwards the tree mirrors the table whatever it missed; a tree that did is unchanged |
| EdgeKeys.ParseOfDecimal | aether-graph-shard/src/types.rs:205-211 | the decimal form of an id reads back as the id |
| EdgeKeys.KeysAreInjective | aether-graph-shard/src/types.rs:205-211 | distinct edges have distinct keys, for every type text |
| EdgeKeys.KeyIsText | aether-graph-shard/src/types.rs:205-211 | the key of an edge from 12 to -3 of type `cites` is `12:-3:cites` |
| EdgeKeys.TouchesExactly | aether-graph-shard/src/storage.rs:291-300 | the scan takes an edge exactly when it is incident or its type, after a colon, spells `:id:` |
| EdgeKeys.ColonFreeTypesAreSafe | aether-graph-shard/src/storage.rs:291-300 | with a colon-free type the scan takes exactly the incident edges |
| EdgeKeys.ColonInTypeMisleads | aether-graph-shard/src/storage.rs:298-300 | an edge from 1 to 2 of type `7:x` is taken for an edge of 7 |
| EdgeIndex.CascadeIsExactIff | aether-graph-shard/src/storage.rs:290-305 | the cascade deletes the incident edges and no others exactly when every stored type that spells the pattern is on an incident edge |
| EdgeIndex.CascadeIsExact | aether-graph-shard/src/storage.rs:290-305 | with colon-free types it always does |
| EdgeIndex.EveryRunKeepsInv | aether-graph-shard/src/storage.rs:286-386 | over every run keys match edges, lists have no repeats, and every stored edge is listed at both ends |
| EdgeIndex.NoCascadeNoDangling | aether-graph-shard/src/storage.rs:340-386 | without cascades every listed edge is stored |
| EdgeIndex.TableIsLatest | aether-graph-shard/src/storage.rs:286-386 | after any run the table holds the latest edge under each key that no later cascade took |
| EdgeIndex.AnswersExactly | aether-graph-shard/src/storage.rs:401-463 | a read returns exactly the node's stored edges of the wanted type, and a timestamp-0 edge for each dangling entry |
| EdgeIndex.OutgoingMeans | aether-graph-shard/src/storage.rs:401-463 | an outgoing read answers exactly the edges from the node, of the wanted type if one is asked for, that are in the table, or are listed with that neighbour, type and weight but missing there and then carry timestamp 0 |
| EdgeIndex.IncomingMeans | aether-graph-shard/src/storage.rs:401-463 | an incoming read the edges to the node, alike |
| EdgeIndex.AnswersAreDistinct | aether-graph-shard/src/storage.rs:414-431 | no edge is answered twice in one direction |
| EdgeIndex.ReadsAreLatest | aether-graph-shard/src/storage.rs:401-463 | without cascades a read returns exactly the latest matching edges, each once |
| EdgeIndex.ListIsHistory | aether-graph-shard/src/storage.rs:280-386 | after any run a list names a neighbour and type with the weight of the put that first listed it since the list was last dropped, and nothing else |
| EdgeIndex.ReadsAreHistory | aether-graph-shard/src/storage.rs:280-463 | after any run, cascades included, a read returns exactly the latest edges and, for those a cascade took but the list keeps, a timestamp-0 edge of the listed weight, each once |
| EdgeIndex.CascadeLeavesEcho | aether-graph-shard/src/storage.rs:281-305 | after a cascade a neighbour's read still returns the deleted edge, with timestamp 0 and its first weight |
| EdgeIndex.EdgeStore.PutEdge | aether-graph-shard/src/storage.rs:340-386 | table and both lists are updated, the count follows, and the answer says whether the key was new |
| EdgeIndex.EdgeStore.Collect | aether-graph-shard/src/storage.rs:414-431 | one edge per wanted entry, in list order |
| EdgeIndex.EdgeStore.GetEdges | aether-graph-shard/src/storage.rs:401-463 | outgoing answers, incoming answers, or both in that order |
| EdgeIndex.EdgeStore.TouchedKeys | aether-graph-shard/src/storage.rs:291-305 | the scan collects and counts exactly the keys it matches |
| EdgeIndex.EdgeStore.CascadeDelete | aether-graph-shard/src/storage.rs:280-313 | exactly the matched keys and the node's own lists go, and the count is their number |
| NeighborSearch.GetNeighbors | aether-graph-shard/src/service.rs:304-361 | min(max(limit, 10), R) distinct stored nodes within max_hops cut to 1..5, in order of true distance, none omitted that is nearer |
| NeighborSearch.WithinIsWalk | aether-graph-shard/src/service.rs:320-353 | a node is within a number of hops exactly when a walk of at most so many edges over stored nodes leads to it |
| NeighborSearch.Explore | aether-graph-shard/src/service.rs:317-353 | the queue loop stops at the hop bound, with enough results or with nothing left, having queued level by level |
| NeighborSearch.ExpandHead | aether-graph-shard/src/service.rs:325-352 | a dequeued node's unseen stored targets are queued one level further, each once |
| NeighborSearch.BallIsQueued | aether-graph-shard/src/service.rs:320-353 | once everything nearer than h is dequeued, the ball of radius h is queued |
| NeighborSearch.QueuedIsWithin | aether-graph-shard/src/service.rs:346 | a queued node lies within its recorded depth |
| NeighborSearch.NearerIsQueuedEarlier | aether-graph-shard/src/service.rs:320-353 | nothing closer than a queued node is missing before it |
| Matching.FillsWhatIsThere | qbc-exchange/src/orderbook.rs:74-134 | a taker gets the smaller of its size and the eligible quantity, short of it only by stopping within dust of its size |
| Matching.MatchConsumesPrefix | qbc-exchange/src/orderbook.rs:79-128 | makers are consumed in book order, all but the last exhausted; a taker with something left has cleared everything eligible |
| Matching.MatchIsGreedy | qbc-exchange/src/orderbook.rs:92-103 | the fills cost exactly the greedy price of their volume |
| Matching.GreedyIsCheapest | qbc-exchange/src/orderbook.rs:34-44 | filling a sorted book from its head is the cheapest allocation of the quantity |
| Matching.BestExecution | qbc-exchange/src/orderbook.rs:74-134 | no allocation of the same quantity over the eligible orders is better for the taker |
| Matching.MarketIsUnboundedLimit | qbc-exchange/src/orderbook.rs:137-187 | a market order trades like a limit order whose price crosses the whole side |
| Matching.MatchMovesTaker | qbc-exchange/src/orderbook.rs:92-96 | the taker changes in its filled quantity only |
| OrderBook.Book.NextOrderId | qbc-exchange/src/orderbook.rs:29-32 | ids count up |
| OrderBook.Book.SortBids | qbc-exchange/src/orderbook.rs:34-38 | the side becomes the stable sort of what it was: in order, a permutation, ties kept; price falling, then time rising |
| OrderBook.Book.SortAsks | qbc-exchange/src/orderbook.rs:40-44 | the side becomes the stable sort of what it was: in order, a permutation, ties kept; price rising, then time rising |
| OrderBook.Book.FillAt | qbc-exchange/src/orderbook.rs:92-127 | one fill: smaller remainder, maker's price, trade logged, maker removed within dust or reduced, its copy updated |
| OrderBook.Book.MatchLimit | qbc-exchange/src/orderbook.rs:74-134 | the loop over the crossing makers is the recursive match |
| OrderBook.Book.MatchMarket | qbc-exchange/src/orderbook.rs:137-187 | the loop on the head of the side is the same match without a price check |
| OrderBook.Book.AddOrder | qbc-exchange/src/orderbook.rs:47-71 | match, rest what is left of a limit order on its sorted side, record the order |
| OrderBook.Book.CancelOrder | qbc-exchange/src/orderbook.rs:189-209 | accepted exactly for a known order neither filled nor cancelled, of that owner or with no owner named, which leaves both sides and is marked |
| OrderBookRuns.FillKeepsMid | qbc-exchange/src/orderbook.rs:92-127 | one fill keeps sides, table and trade log in step while the taker is outside the table |
| OrderBookRuns.SortSideInserts | qbc-exchange/src/orderbook.rs:34-44 | push and sort is a stable insert into the sorted side |
| OrderBookRuns.AddKeepsInv | qbc-exchange/src/orderbook.rs:47-71 | adding an order keeps the invariant of the book |
| OrderBookRuns.CancelKeepsInv | qbc-exchange/src/orderbook.rs:189-209 | cancelling keeps it |
| OrderBookRuns.PlaceOrder | qbc-exchange/src/service.rs:59-103 | the size and funds checks, then one more order, whose fills are returned |
| OrderBookRuns.EveryRunKeepsInv | qbc-exchange/src/orderbook.rs:34-209 | after any run: price-time priority, not crossed, mirrored, and every record within dust of its logged trades and never over its size |
| OrderBookRuns.OnBookExactlyUnfinished | qbc-exchange/src/orderbook.rs:54-71 | an order rests on its side exactly while it is an unfinished limit order |
| OrderBookRuns.MarketRemainderIsNotOnBook | qbc-exchange/src/orderbook.rs:54-70 | a market order never rests; its remainder stays behind as an open record |
| OrderBookRuns.MarketOrderStaysOpen | qbc-exchange/src/orderbook.rs:54-70 | a market order on an empty book leaves such a record |
| OrderBookRuns.EveryTakerIsServedBest | qbc-exchange/src/orderbook.rs:47-187 | after any run a taker consumes a prefix, gets all it can up to dust, as cheaply as any allocation |
| OrderBookClient.PriceTimePriority | qbc-exchange/src/orderbook.rs:34-44 | after any run, of two orders on a side the one in front has the strictly better price, or the same price and an earlier time, or both the same and the smaller id |
| OrderBookClient.RestingIsOnRecord | qbc-exchange/src/orderbook.rs:54-71 | after any run what rests is a limit order of its side with more than 1e-12 left, as recorded, partial as soon as it traded |
| OrderBookClient.RecordsAreRight | qbc-exchange/src/orderbook.rs:47-187 | after any run the filled quantity of every record is that of its logged trades to 1e-12 and at most its size, and its status says so |
| OrderBookClient.TradesAreFair | qbc-exchange/src/orderbook.rs:92-111 | every logged trade is at its maker's price, within the limits of both orders, of opposite sides and positive size |
| OrderBookClient.PlacedIsRecorded | qbc-exchange/src/service.rs:59-103 | an order is refused exactly below the minimum size, or as a limit order of a known address with less than price times size (buy) or size (sell) available; otherwise it is recorded under the next id with its own terms |
| OrderBookClient.PlacedIsServed | qbc-exchange/src/orderbook.rs:74-187 | an accepted order trades with the other side from its head, at each maker's price, all makers but the last used up, and stops only when full to 1e-12, at an empty side, or at a price beyond its limit |
| OrderBookClient.CancelledIsOffBook | qbc-exchange/src/orderbook.rs:189-209 | a cancellation is granted exactly for a known order neither filled nor cancelled, asked for by its owner or without a name; then it is off both sides and marked, and nothing else changes |
| DepthSnapshot.SumByPrice | qbc-exchange/src/orderbook.rs:211-248 | the level table holds the scanned open quantity of every scanned price |
| DepthSnapshot.QuantityMeans | qbc-exchange/src/orderbook.rs:211-248 | one more order adds its size less what it was filled, at its own price only |
| DepthSnapshot.Aggregate | qbc-exchange/src/orderbook.rs:211-248 | levels are strictly ordered, sized by the scan, and the best ones |
| DepthSnapshot.GetOrderbook | qbc-exchange/src/orderbook.rs:211-259 | best levels are the heads of the sides; a level has the whole quantity of its price exactly when the first order behind the scan has another; with positive prices the spread is their positive difference and the mid price their mean |
| DepthSnapshot.BestLevelIsHead | qbc-exchange/src/orderbook.rs:211-248 | the best level has the price of the head order |
| DepthSnapshot.LevelsAreComplete | qbc-exchange/src/orderbook.rs:211-248 | exactly the level whose price continues behind the scanned orders is cut short |
| DepthSnapshot.BetterLevelsAreComplete | qbc-exchange/src/orderbook.rs:211-248 | a level strictly better than the last scanned price carries the book's whole quantity |
| Synthetic.MintIsExact | qbc-exchange/src/synthetic.rs:60-70 | 1.5 times the worth of the minted amount is the collateral less the fee rate |
| Synthetic.MintKeepsZone | qbc-exchange/src/synthetic.rs:72-84 | a further mint keeps collateral over amount between the lowest and the highest mint price |
| Synthetic.BurnKeepsZone | qbc-exchange/src/synthetic.rs:126-133 | a partial burn shrinks both by one factor and keeps the zone |
| Synthetic.RatioTest | qbc-exchange/src/types.rs:113-118 | the ratio is under the threshold exactly when the collateral is under 1.1 times the worth |
| Synthetic.SafeZone | qbc-exchange/src/synthetic.rs:179-180 | never under the threshold up to 1.5/(0.997*1.1) times the low price, always beyond that multiple of the high |
| Synthetic.RangeIsMintPrices | qbc-exchange/src/synthetic.rs:72-84 | the recorded range is the lowest and highest mint price since the position opened |
| Synthetic.SafeZoneOverRuns | qbc-exchange/src/synthetic.rs:43-202 | the same for every position after every run of mints, burns and sweeps |
| Synthetic.SweepRemovesDoomed | qbc-exchange/src/synthetic.rs:162-199 | a sweep removes exactly the priced positions under the threshold and changes no other |
| Synthetic.TakenIsDoomed | qbc-exchange/src/synthetic.rs:179-189 | the reported list has each of them once, with its amount |
| Synthetic.MintKeepsInv | qbc-exchange/src/synthetic.rs:43-95 | a mint keeps every position in its zone and supply within its drift |
| Synthetic.BurnKeepsInv | qbc-exchange/src/synthetic.rs:99-152 | so does a burn, and only a closing one adds a dust to the allowed drift |
| Synthetic.SweepKeepsInv | qbc-exchange/src/synthetic.rs:156-202 | so does a sweep |
| Synthetic.ReleaseBacking | qbc-exchange/src/synthetic.rs:126-141 | a burn takes exactly the released share off the collateral on the books |
| Synthetic.SweepBacking | qbc-exchange/src/synthetic.rs:191-197 | a sweep moves collateral to the seized total and loses none |
| Synthetic.SyntheticManager.MintTokens | qbc-exchange/src/synthetic.rs:43-95 | accepted exactly for a known symbol at a positive price and amount, refused with the first error that applies; books, amounts and fee follow |
| Synthetic.SyntheticManager.BurnTokens | qbc-exchange/src/synthetic.rs:99-152 | accepted exactly for a known symbol at a positive price and an amount of at most 1e-12 over the position, refused with the first error that applies; returns the share less the fee |
| Synthetic.MintMeans | qbc-exchange/src/synthetic.rs:60-84 | a granted mint adds tokens of which 1.5 times the worth is 0.997 times the collateral, to the position and the totals |
| Synthetic.BurnMeans | qbc-exchange/src/synthetic.rs:115-141 | a granted burn releases the burned share of the collateral from position and totals; a position left with less than 1e-12 is gone |
| Synthetic.SweepMeans | qbc-exchange/src/synthetic.rs:156-202 | a sweep takes exactly the positions whose collateral is under 1.1 times their worth at a known, positive price |
| Synthetic.LiquidateMeans | qbc-exchange/src/synthetic.rs:188-197 | each with its amount and its collateral off the totals of its symbol |
| Synthetic.SyntheticManager.ReleaseFrom | qbc-exchange/src/synthetic.rs:126-141 | the position is reduced, or dropped below dust, and the totals follow |
| Synthetic.SyntheticManager.TakeOff | qbc-exchange/src/synthetic.rs:191-197 | a position leaves the books with its totals |
| Synthetic.SyntheticManager.LiquidateIfDoomed | qbc-exchange/src/synthetic.rs:164-198 | one position is judged only at a known positive price, and removed with its totals |
| Synthetic.SyntheticManager.CheckLiquidations | qbc-exchange/src/synthetic.rs:156-202 | the loop over a snapshot of the keys is the sweep, and reports what it took |
| CollateralDrift.ClosingLeaves | qbc-exchange/src/synthetic.rs:126-141 | a closing burn leaves at most 1.5/0.997 dust times the highest mint price of the position's collateral on the books, or takes that much too much |
| CollateralDrift.BurnDrift | qbc-exchange/src/synthetic.rs:99-152 | any other burn moves the recorded collateral and the positions' by the same amount |
| CollateralDrift.DriftWithinSlack | qbc-exchange/src/synthetic.rs:43-202 | after any run the recorded collateral of a symbol is off its positions' collateral by at most the sum of these over the closing burns |
| CollateralDrift.SlackIsOfMintPrices | qbc-exchange/src/synthetic.rs:72-84 | the price behind each is one the position was minted at, the highest |
| MapSums.SumUpdate | qbc-exchange/src/synthetic.rs:228-230 | setting one entry changes the sum of the values by the difference |
| Ledger.ExchangeBalanced | qbc-exchange/src/service.rs:449-465 | two balance movements matched by the books keep every asset accounted for |
| Ledger.DoKeepsInv | qbc-exchange/src/service.rs:317-550 | every step, granted or refused, keeps balances non-negative and every asset conserved |
| Ledger.EveryRunConserves | qbc-exchange/src/service.rs:317-550 | QUSD balances, collateral, seized collateral and burn fees sum to deposits less withdrawals; any other asset is held as deposited plus issued |
| Ledger.Exchange.DepositFunds | qbc-exchange/src/service.rs:317-349 | a positive amount is credited to that account, anything else refused; no other balance moves |
| Ledger.Exchange.WithdrawFunds | qbc-exchange/src/service.rs:351-390 | granted exactly for a positive amount within the balance, which it leaves; no other balance moves |
| Ledger.Exchange.MintSynthetic | qbc-exchange/src/service.rs:418-485 | granted exactly when the QUSD balance is at least the positive amount, the symbol known and the price positive; the amount leaves QUSD, and tokens worth 0.997 times it over 1.5 enter their balance; no other balance moves |
| Ledger.Exchange.BurnSynthetic | qbc-exchange/src/service.rs:487-550 | granted exactly when the token balance is at least the positive amount, the symbol known, the price positive and the position at least the amount less 1e-12; the tokens leave their balance, and 0.997 times the burned share of the collateral enters QUSD; no other balance moves |
| DisbursementDb.Db.GetDisbursementByKey | aikgs-sidecar/src/db.rs:1332-1346 | the row of the key, if there is one |
| DisbursementDb.Db.InsertDisbursement | aikgs-sidecar/src/db.rs:1349-1368 | a new key gets a pending row; an old one is left alone and answered with false |
| DisbursementDb.Db.CompleteDisbursement | aikgs-sidecar/src/db.rs:1371-1391 | the row, if any, gets its final status |
| DisbursementDb.Db.MarkDisbursementRetrying | aikgs-sidecar/src/db.rs:1442-1455 | the row, if any, is pending again with one more retry |
| DisbursementDb.Db.GetFailedDisbursementsForRetry | aikgs-sidecar/src/db.rs:1421-1439 | distinct failed rows with retries left, at most 50, with their payments, oldest first; a row is left out only when all 50 are older |
| DisbursementDb.FailuresSound | aikgs-sidecar/src/db.rs:1425-1434 | a batch lists distinct retryable keys, each with its stored payment |
| DisbursementDb.BatchSoundAndFull | aikgs-sidecar/src/db.rs:1425-1434 | a retryable row is skipped only when the batch is full |
| DisbursementDb.BatchMeans | aikgs-sidecar/src/db.rs:1425-1434 | a batch has at most 50 rows, each failed with retries left and its stored payment; below 50 it has them all |
| DisbursementDb.BatchIsOldest | aikgs-sidecar/src/db.rs:1425-1434 | the filtered list cut to 50 is what the query asks for |
| Disbursement.ActorKeepsInv | aikgs-sidecar/src/service.rs:1034-1112 | every step of a handler or a spawned payout keeps the invariant of the protocol |
| Disbursement.RetryKeepsInv | aikgs-sidecar/src/main.rs:82-178 | every step of the retry task keeps it |
| Disbursement.StepKeepsInv | aikgs-sidecar/src/service.rs:239-291 | so do starts of handlers and spawned payouts, and crashes |
| Disbursement.AtMostOncePayout | aikgs-sidecar/src/service.rs:1034-1112 | in every run: one sender per key, at most one reported payout, no send after it, at most 1 + max_retries sends, all of the stored payment, and no row or reply that claims a payout of its key that was not reported; what was paid is the stored payment |
| Disbursement.SuccessIsOwnIff | aikgs-sidecar/src/service.rs:1034-1055 | a caller told of success had its own payment sent exactly when the row of its key stores that payment |
| Disbursement.SuccessOfAnother | aikgs-sidecar/src/service.rs:1034-1055 | a second call with the key, but not the payment, of a paid one is told of success and never sent |
| Disbursement.LostRaceNeverSends | aikgs-sidecar/src/service.rs:1069-1087 | a handler that lost the insert race always finds the winner's row |
| Disbursement.LookAnswers | aikgs-sidecar/src/service.rs:1034-1087 | both looks without a fault end in exactly the answer whether the status of the row is success, and change nothing else |
| Abandonment.AbandonedForever | aikgs-sidecar/src/db.rs:1429-1434 | a pending row without a sender is never sent, paid or retried again |
| Abandonment.AbandonedIff | aikgs-sidecar/src/service.rs:1034-1112 | a step leaves a pending row without a sender exactly in six cases, told by its place, fault and answer |
| Abandonment.AbandonedByStep | aikgs-sidecar/src/main.rs:82-178 | a payout is abandoned after a run exactly when some step of the run was such a case |
| Abandonment.PendingHasOneSender | aikgs-sidecar/src/service.rs:1034-1112 | a pending payout has exactly one sender if and only if no step of the run abandoned it |
| Abandonment.AbandonedPaidIff | aikgs-sidecar/src/service.rs:1089-1112 | an abandoned payout was paid exactly when its sender held the node's report, not yet recorded |
| Abandonment.PaidButPending | aikgs-sidecar/src/service.rs:248-290 | some run leaves a payout that the node confirmed pending for ever |
| Abandonment.LostReplyAbandons | aikgs-sidecar/src/service.rs:1089-1094 | a handler whose send gets no readable answer leaves its row pending |
| Abandonment.CrashAbandons | aikgs-sidecar/src/main.rs:125-178 | so does a crash between send and record |
| Disbursement.SendBoundIsTight | aikgs-sidecar/src/main.rs:82-178 | some run sends a key 1 + max_retries times |
| Sidecar.OthersKeepSelf | aikgs-sidecar/src/service.rs:1034-1112 | whatever others do, an actor keeps its place and the table stays consistent |
| Sidecar.Look | aikgs-sidecar/src/service.rs:1035-1055 | both looks end the call with an error, or with whether the row found has status success, or let it go on; the second one always finds a row |
| Sidecar.Insert | aikgs-sidecar/src/service.rs:1058-1069 | only a fresh insert, of a pending row without retries, leads to the send; a call that lost looks again, a spawned payout stops |
| Sidecar.Await | aikgs-sidecar/src/service.rs:1090-1094 | a lost answer ends a call with an error and is recorded as a failure by a spawned payout; an accepted one is a payout since |
| Sidecar.RowOfSender | aikgs-sidecar/src/service.rs:1058-1112 | while a call is sending, the row of its key stays as it was inserted |
| Sidecar.Record | aikgs-sidecar/src/service.rs:1097-1105 | the row of the key gets the outcome, unless the statement was refused; the recording's own failure is ignored |
| Sidecar.Pay | aikgs-sidecar/src/service.rs:1089-1112 | one send, then the answer to the caller that its outcome calls for, and the row of the key says the same |
| Sidecar.Decide | aikgs-sidecar/src/service.rs:1034-1087 | the checks end with the reply that the rows they find call for, or with the right to send |
| Sidecar.Serve | aikgs-sidecar/src/service.rs:1034-1112 | a call that found no row twice sends its payment, and the row gets the outcome; any other ends as the rows it found say |
| Sidecar.Disburse | aikgs-sidecar/src/service.rs:1034-1112 | interrupted before every call it makes, a call is a run of protocol steps; its answer is the one that the rows it finds and the node call for: any true or false is that of a row seen during the call, or of its own send; a reported success means a payout of its key, and of its own payment exactly when the row stores it |
| Sidecar.SpawnedPayout | aikgs-sidecar/src/service.rs:248-290 | so is the payout spawned for a contribution: if its insert is fresh it sends, and the row gets the outcome |
| Sidecar.RowOfRetry | aikgs-sidecar/src/main.rs:116-175 | a row about to be marked is failed with retries left, and during the resend it is pending |
| Sidecar.Mark | aikgs-sidecar/src/main.rs:124-131 | a failed row becomes pending with one more retry, unless the statement was refused |
| Sidecar.Note | aikgs-sidecar/src/main.rs:133-174 | a pending row gets its outcome, unless the statement was refused |
| Sidecar.Resend | aikgs-sidecar/src/main.rs:124-136 | a row is marked and its payment received by the node once more, or skipped when marking fails |
| Sidecar.Conclude | aikgs-sidecar/src/main.rs:137-174 | the answer is recorded in the row, a missing one as a failure; an accepted one is a payout since; the next row is up |
| Sidecar.RetryRow | aikgs-sidecar/src/main.rs:116-175 | one row of the batch, from its mark to its outcome, is a run of protocol steps; if it could be marked it was sent since, and its row has the outcome |
| Sidecar.RetryRound | aikgs-sidecar/src/main.rs:82-178 | a round reads the batch the query asks for, is a run of protocol steps and ends idle; every row it could mark was sent during the round, and paid if the node said so |
| Sidecar.HandlersAreSafe | aikgs-sidecar/src/service.rs:1034-1112 | so the node's log and the table satisfy every guarantee of the protocol |
| Supply.WithinEra | indexer/src/indexer.rs:580-583 | the first n blocks of an era emit n times its reward |
| Supply.ApproximateTotalSupply | indexer/src/indexer.rs:569-588 | the era loop terminates with premine plus the per-block sum, below 652 million |
| Supply.StrictlyIncreasing | indexer/src/indexer.rs:580-585 | every block adds to the supply |
| Supply.FullEras | indexer/src/indexer.rs:579-586 | full eras emit the difference of two geometric tails |
| Supply.BelowGeometricBound | indexer/src/indexer.rs:579-586 | emission stays below 15.27 * 15474020 * phi/(phi-1) |
| Supply.BelowCap | README.md:38 | so the supply stays far below the 3.3 billion cap |

## Left out

- Floating point: rounding, overflow and infinities; amounts, prices, weights and distances are reals. Stored amounts are not rounded to eight decimals, and integer counters do not wrap.
- Disbursement.AtMostOncePayout: speaks of payouts the node reported; a node that pays and loses its answer can pay again on a retry, and two sidecar processes with two retry tasks are not modelled.
- Disbursement.StepKeepsInv: the daily and hourly caps, the recipient and amount checks and the derivation of the key from the request are outside the steps; the backoff only delays a step.
- Disbursement.SuccessIsOwnIff: nothing ties a key to one payment, as in the program; a call without a reason gets a key of its own from the clock.
- Disbursement.Exec: a call cancelled by its client is not a step of its own; to stop at an await is to the others the same as a fault there: an insert that took effect without an acknowledgement, a lost answer, or a record that did or did not take effect.
- Sidecar.Disburse: others never crash the process during a call, since a crash would end it; crashes are steps of the protocol itself.
- LayerSearch.SearchLayer: no recall claim, since vectors added below the threshold never enter the graph; the layout of the heaps and the order of equal distances are not modelled.
- VectorIndex.ShardVectorIndex.CoveredSearchIsExact: asks that no list is full; a list that is exactly full was perhaps never cut, and `Connectivity.GrowthKeepsJoined` covers that case too.
- HnswGraph.Prune: the library's sort is unspecified when a removed vector makes distances incomparable, so the closest-first claim is made only when all entries are live.
- VectorIndex.ShardVectorIndex.HnswInsert: the random level and its cap of 16 are an input; `rebuild_hnsw`, which renumbers positions after removals, is not modelled.
- VectorIndex.ShardVectorIndex.Search: vectors are sequences in slots, not one flat buffer; an embedding that itself holds a NaN is not modelled.
- NeighborSearch.GetNeighbors: edges of a stored node are one list after the type filter; the `paths` of the answer, shard lookup and read errors are not modelled.
- ShardStore.ShardStore.PutNode: the vector index of a store is modelled on its own and not wired to it; deleting a node leaves its vector in the index, and `vector_search` drops such ids by looking them up.
- ShardStore.ShardStore.Compact: the value score is a parameter, since its recency is an exponential; reclaimed bytes are not modelled.
- ShardStore.ShardStore.UpdateConfidence: one caller at a time; the read and the write are two locked steps in the program.
- TopK.Search: lower-casing and splitting the query come before the model; read errors end a scan in the program.
- TopK.SearchDomain: shard creation, cross-domain search and search over all domains are the same gather and add nothing.
- IncrementalMerkle.IncrementalMerkle.ProofFor: SHA-256 and hexadecimal forms are outside; the pair hash is any function.
- EdgeIndex.EdgeStore.PutEdge: the batch writes of the database are one step, and iteration never fails.
- OrderBook.Book.AddOrder: ids are the numbers behind `ord-00000001`; trade ids, times of trades and market summaries are not modelled.
- OrderBookRuns.PlaceOrder: balances are only read by the funds check, since settlement of fills does nothing in the program; matching does not move funds.
- DepthSnapshot.GetOrderbook: no market statistics.
- Synthetic.SyntheticManager.CheckLiquidations: where the prices come from and how often a sweep runs; nothing in the exchange calls `check_liquidations`, so a sweep is a step that `Ledger` allows and the service never takes; the ratio of an unpriced position is a value above every threshold instead of the largest float.
- Ledger.EveryRunConserves: the nested balance maps are one map over owner and asset; QUSD is not itself a synthetic asset.
- Supply.ApproximateTotalSupply: the 32-bit era counter and the rounding of the total to eight decimals.
- Profiles, badges, scoring, the key vault, gRPC and HTTP layers, database options and metrics: lookups and plumbing.
