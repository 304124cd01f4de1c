/** The edge side of a shard: the edge table under its text keys, the two adjacency lists of
    every node, and the cascade of a node's deletion.
 */
module EdgeIndex {
  import opened EdgeKeys
  import opened Wrappers

  datatype Edge = Edge(from: int, to: int, edgeType: string, weight: real, timestamp: real)

  /** One entry of an adjacency list; `weight` is the weight when the entry was added. */
  datatype Entry = Entry(node: int, edgeType: string, weight: real)

  /** The end of an edge that a list belongs to. */
  datatype Side = Outgoing | Incoming

  datatype State = State(edges: map<string, Edge>, outgoing: map<int, seq<Entry>>, incoming: map<int, seq<Entry>>)

  const EMPTY := State(map[], map[], map[])

  function KeyOf(e: Edge): string {
    Key(e.from, e.to, e.edgeType)
  }

  function Near(side: Side, e: Edge): int {
    if side.Outgoing? then e.from else e.to
  }

  function EntryOf(side: Side, e: Edge): Entry {
    Entry(if side.Outgoing? then e.to else e.from, e.edgeType, e.weight)
  }

  /** The key of the edge that an entry of node `id` stands for. */
  function KeyAt(side: Side, id: int, a: Entry): string {
    if side.Outgoing? then Key(id, a.node, a.edgeType) else Key(a.node, id, a.edgeType)
  }

  /** A missing list reads as empty. */
  function Lookup(lists: map<int, seq<Entry>>, id: int): seq<Entry> {
    if id in lists then lists[id] else []
  }

  function ListOf(s: State, side: Side, id: int): seq<Entry> {
    Lookup(if side.Outgoing? then s.outgoing else s.incoming, id)
  }

  predicate SameEdge(a: Entry, b: Entry) {
    a.node == b.node && a.edgeType == b.edgeType
  }

  predicate Lists(list: seq<Entry>, a: Entry) {
    exists i :: 0 <= i < |list| && SameEdge(list[i], a)
  }

  /** The list with an entry for this neighbour and type, added only when there is none. */
  function WithEntry(list: seq<Entry>, a: Entry): seq<Entry> {
    if Lists(list, a) then list else list + [a]
  }

  function Put(s: State, e: Edge): State {
    State(
      s.edges[KeyOf(e) := e],
      s.outgoing[e.from := WithEntry(ListOf(s, Outgoing, e.from), EntryOf(Outgoing, e))],
      s.incoming[e.to := WithEntry(ListOf(s, Incoming, e.to), EntryOf(Incoming, e))])
  }

  /** The node's own lists go, and every key the scan takes; other nodes' lists stay. */
  function Cascade(s: State, id: int): State {
    State(
      map k | k in s.edges && !Touches(k, id) :: s.edges[k],
      s.outgoing - {id},
      s.incoming - {id})
  }

  lemma PutList(s: State, e: Edge, side: Side, id: int)
    ensures ListOf(Put(s, e), side, id) ==
      if id == Near(side, e) then WithEntry(ListOf(s, side, id), EntryOf(side, e)) else ListOf(s, side, id)
  {
  }

  // ---- What every run keeps ----

  ghost predicate KeyedByEdge(s: State) {
    forall k :: k in s.edges ==> KeyOf(s.edges[k]) == k
  }

  ghost predicate NoRepeats(list: seq<Entry>) {
    forall i, j :: 0 <= i < j < |list| ==> !SameEdge(list[i], list[j])
  }

  ghost predicate ListsDistinct(s: State) {
    forall side, id :: NoRepeats(ListOf(s, side, id))
  }

  /** Every stored edge is listed at both ends. */
  ghost predicate EdgesListed(s: State) {
    forall k, side :: k in s.edges ==> Lists(ListOf(s, side, Near(side, s.edges[k])), EntryOf(side, s.edges[k]))
  }

  ghost predicate Inv(s: State) {
    KeyedByEdge(s) && ListsDistinct(s) && EdgesListed(s)
  }

  ghost predicate Backed(edges: map<string, Edge>, side: Side, id: int, list: seq<Entry>) {
    forall i :: 0 <= i < |list| ==> KeyAt(side, id, list[i]) in edges
  }

  /** Every listed edge is stored. */
  ghost predicate NoDangling(s: State) {
    forall side, id :: Backed(s.edges, side, id, ListOf(s, side, id))
  }

  lemma WithEntryLists(list: seq<Entry>, a: Entry, b: Entry)
    ensures Lists(WithEntry(list, a), b) <==> Lists(list, b) || SameEdge(a, b)
  {
    var longer := WithEntry(list, a);
    if Lists(list, b) {
      var i :| 0 <= i < |list| && SameEdge(list[i], b);
      assert longer[i] == list[i];
    }
    if !Lists(list, a) {
      assert longer[|list|] == a;
    }
  }

  lemma PutKeepsDistinct(s: State, e: Edge)
    requires ListsDistinct(s)
    ensures ListsDistinct(Put(s, e))
  {
    forall side, id ensures NoRepeats(ListOf(Put(s, e), side, id)) {
      assert NoRepeats(ListOf(s, side, id));
      PutList(s, e, side, id);
    }
  }

  lemma PutKeepsListed(s: State, e: Edge)
    requires EdgesListed(s)
    ensures EdgesListed(Put(s, e))
  {
    var t := Put(s, e);
    forall k, side | k in t.edges
      ensures Lists(ListOf(t, side, Near(side, t.edges[k])), EntryOf(side, t.edges[k]))
    {
      var f := t.edges[k];
      PutList(s, e, side, Near(side, f));
      WithEntryLists(ListOf(s, side, Near(side, f)), EntryOf(side, e), EntryOf(side, f));
    }
  }

  lemma PutKeepsInv(s: State, e: Edge)
    requires Inv(s)
    ensures Inv(Put(s, e))
  {
    PutKeepsDistinct(s, e);
    PutKeepsListed(s, e);
  }

  lemma CascadeList(s: State, id: int, side: Side, node: int)
    ensures ListOf(Cascade(s, id), side, node) == if node == id then [] else ListOf(s, side, node)
  {
  }

  predicate Incident(e: Edge, id: int) {
    e.from == id || e.to == id
  }

  /** Read from its own colon on, the type spells the node's pattern. */
  predicate Spells(edgeType: string, id: int) {
    Contains(":" + edgeType, ":" + Prefix(id))
  }

  lemma CascadeTakes(s: State, id: int, k: string)
    requires KeyedByEdge(s) && k in s.edges
    ensures k !in Cascade(s, id).edges <==> Incident(s.edges[k], id) || Spells(s.edges[k].edgeType, id)
  {
    var f := s.edges[k];
    assert k == KeyOf(f);
    TouchesExactly(f.from, f.to, f.edgeType, id);
  }

  /** When the cascade deletes the node's edges and no others: exactly when every stored
      edge whose type spells the node's pattern is an edge of the node anyway. */
  lemma CascadeIsExactIff(s: State, id: int)
    requires KeyedByEdge(s)
    ensures (forall k :: k in s.edges ==> (k in Cascade(s, id).edges <==> !Incident(s.edges[k], id)))
       <==> (forall k :: k in s.edges && Spells(s.edges[k].edgeType, id) ==> Incident(s.edges[k], id))
  {
    forall k | k in s.edges
      ensures k !in Cascade(s, id).edges <==> Incident(s.edges[k], id) || Spells(s.edges[k].edgeType, id)
    {
      CascadeTakes(s, id, k);
    }
  }

  /** With colon-free types it always is. */
  lemma CascadeIsExact(s: State, id: int)
    requires KeyedByEdge(s) && forall k :: k in s.edges ==> ColonFree(s.edges[k].edgeType)
    ensures Cascade(s, id).edges == map k | k in s.edges && !Incident(s.edges[k], id) :: s.edges[k]
  {
    forall k | k in s.edges ensures k in Cascade(s, id).edges <==> !Incident(s.edges[k], id) {
      var f := s.edges[k];
      assert k == KeyOf(f);
      ColonFreeTypesAreSafe(f.from, f.to, f.edgeType, id);
    }
  }

  lemma CascadeKeepsInv(s: State, id: int)
    requires Inv(s)
    ensures Inv(Cascade(s, id))
  {
    var t := Cascade(s, id);
    forall k, side | k in t.edges
      ensures Lists(ListOf(t, side, Near(side, t.edges[k])), EntryOf(side, t.edges[k]))
    {
      CascadeTakes(s, id, k);
      CascadeList(s, id, side, Near(side, s.edges[k]));
    }
    forall side, node ensures NoRepeats(ListOf(t, side, node)) {
      assert NoRepeats(ListOf(s, side, node));
      CascadeList(s, id, side, node);
    }
  }

  lemma PutKeepsNoDangling(s: State, e: Edge)
    requires NoDangling(s)
    ensures NoDangling(Put(s, e))
  {
    forall side, id ensures Backed(Put(s, e).edges, side, id, ListOf(Put(s, e), side, id)) {
      assert Backed(s.edges, side, id, ListOf(s, side, id));
      PutList(s, e, side, id);
    }
  }

  // ---- Runs ----

  datatype Op = PutEdge(edge: Edge) | CascadeFrom(id: int)

  function Do(s: State, op: Op): State {
    match op
    case PutEdge(e) => Put(s, e)
    case CascadeFrom(id) => Cascade(s, id)
  }

  function Run(ops: seq<Op>): State {
    if ops == [] then EMPTY else Do(Run(ops[..|ops| - 1]), ops[|ops| - 1])
  }

  /** The last edge put under a key, unless a later cascade took the key. */
  function Latest(ops: seq<Op>, key: string): Option<Edge> {
    if ops == [] then None
    else
      match ops[|ops| - 1]
      case PutEdge(e) => if KeyOf(e) == key then Some(e) else Latest(ops[..|ops| - 1], key)
      case CascadeFrom(id) => if Touches(key, id) then None else Latest(ops[..|ops| - 1], key)
  }

  lemma {:induction false} EveryRunKeepsInv(ops: seq<Op>)
    ensures Inv(Run(ops))
  {
    if ops == [] {
    } else {
      var s, op := Run(ops[..|ops| - 1]), ops[|ops| - 1];
      EveryRunKeepsInv(ops[..|ops| - 1]);
      match op {
        case PutEdge(e) =>
          PutKeepsInv(s, e);
        case CascadeFrom(id) =>
          CascadeKeepsInv(s, id);
      }
    }
  }

  /** After any run the table holds, under each key, the latest surviving edge. */
  lemma {:induction false} TableIsLatest(ops: seq<Op>, key: string)
    ensures var edges := Run(ops).edges;
      Latest(ops, key) == if key in edges then Some(edges[key]) else None
  {
    if ops == [] {
    } else {
      TableIsLatest(ops[..|ops| - 1], key);
    }
  }

  /** The weight a list entry carries after a run: that of the first put that added it, unless a
      later cascade of the list's node dropped the list. */
  function Listed(ops: seq<Op>, side: Side, id: int, node: int, edgeType: string): Option<real> {
    if ops == [] then None
    else
      var before := Listed(ops[..|ops| - 1], side, id, node, edgeType);
      match ops[|ops| - 1]
      case PutEdge(e) =>
        if before.None? && Near(side, e) == id && EntryOf(side, e) == Entry(node, edgeType, e.weight)
        then Some(e.weight) else before
      case CascadeFrom(x) => if x == id then None else before
  }

  /** What a list says of a neighbour and type: the weight of its entry. */
  ghost predicate Says(list: seq<Entry>, node: int, edgeType: string, weight: Option<real>) {
    if Lists(list, Entry(node, edgeType, 0.0)) then weight.Some? && Entry(node, edgeType, weight.value) in list
    else weight.None?
  }

  lemma SaysAfterEntry(list: seq<Entry>, a: Entry, node: int, edgeType: string, weight: Option<real>)
    requires Says(list, node, edgeType, weight)
    ensures Says(WithEntry(list, a), node, edgeType,
                 if weight.None? && a.node == node && a.edgeType == edgeType then Some(a.weight) else weight)
  {
    WithEntryLists(list, a, Entry(node, edgeType, 0.0));
    if a.node == node && a.edgeType == edgeType {
      ListsAlike(list, a, Entry(node, edgeType, 0.0));
    }
  }

  lemma ListsAlike(list: seq<Entry>, a: Entry, b: Entry)
    requires SameEdge(a, b)
    ensures Lists(list, a) <==> Lists(list, b)
  {
    if i :| 0 <= i < |list| && SameEdge(list[i], a) {
      assert SameEdge(list[i], b);
    }
    if i :| 0 <= i < |list| && SameEdge(list[i], b) {
      assert SameEdge(list[i], a);
    }
  }

  /** After any run, cascades included, every list is the history's. */
  lemma {:induction false} ListIsHistory(ops: seq<Op>, side: Side, id: int, node: int, edgeType: string)
    ensures Says(ListOf(Run(ops), side, id), node, edgeType, Listed(ops, side, id, node, edgeType))
  {
    if ops == [] {
    } else {
      var init, s := ops[..|ops| - 1], Run(ops[..|ops| - 1]);
      ListIsHistory(init, side, id, node, edgeType);
      match ops[|ops| - 1] {
        case PutEdge(e) =>
          PutList(s, e, side, id);
          if Near(side, e) == id {
            SaysAfterEntry(ListOf(s, side, id), EntryOf(side, e), node, edgeType,
                           Listed(init, side, id, node, edgeType));
          }
        case CascadeFrom(x) =>
          CascadeList(s, x, side, id);
      }
    }
  }

  lemma {:induction false} NoCascadeNoDangling(ops: seq<Op>)
    requires forall i :: 0 <= i < |ops| ==> ops[i].PutEdge?
    ensures NoDangling(Run(ops))
  {
    if ops == [] {
    } else {
      NoCascadeNoDangling(ops[..|ops| - 1]);
      PutKeepsNoDangling(Run(ops[..|ops| - 1]), ops[|ops| - 1].edge);
    }
  }

  // ---- Reading edges ----

  predicate Wanted(edgeType: string, filter: Option<string>) {
    filter.None? || filter.value == edgeType
  }

  /** The edge an entry stands for when the table does not have it: timestamp 0. */
  function Fallback(side: Side, id: int, a: Entry): Edge {
    if side.Outgoing? then Edge(id, a.node, a.edgeType, a.weight, 0.0)
    else Edge(a.node, id, a.edgeType, a.weight, 0.0)
  }

  function Resolve(edges: map<string, Edge>, side: Side, id: int, a: Entry): Edge {
    var key := KeyAt(side, id, a);
    if key in edges then edges[key] else Fallback(side, id, a)
  }

  /** One edge per wanted entry, in list order. */
  function Answers(edges: map<string, Edge>, side: Side, id: int, list: seq<Entry>, filter: Option<string>): seq<Edge> {
    if list == [] then []
    else
      var rest, a := Answers(edges, side, id, list[..|list| - 1], filter), list[|list| - 1];
      if Wanted(a.edgeType, filter) then rest + [Resolve(edges, side, id, a)] else rest
  }

  /** The edge at entry `i` of the list is an answer. */
  ghost predicate AnswersAt(edges: map<string, Edge>, side: Side, id: int, list: seq<Entry>, filter: Option<string>,
                            e: Edge, i: int)
  {
    0 <= i < |list| && Wanted(list[i].edgeType, filter) && e == Resolve(edges, side, id, list[i])
  }

  lemma {:induction false} AnswerHasEntry(edges: map<string, Edge>, side: Side, id: int, list: seq<Entry>,
                                          filter: Option<string>, e: Edge)
    requires e in Answers(edges, side, id, list, filter)
    ensures exists i :: AnswersAt(edges, side, id, list, filter, e, i)
  {
    var init, last := list[..|list| - 1], |list| - 1;
    if e in Answers(edges, side, id, init, filter) {
      AnswerHasEntry(edges, side, id, init, filter, e);
      var i :| AnswersAt(edges, side, id, init, filter, e, i);
      assert AnswersAt(edges, side, id, list, filter, e, i);
    } else {
      assert AnswersAt(edges, side, id, list, filter, e, last);
    }
  }

  lemma LastEntryAnswered(edges: map<string, Edge>, side: Side, id: int, init: seq<Entry>, a: Entry,
                          filter: Option<string>)
    ensures Answers(edges, side, id, init, filter) <= Answers(edges, side, id, init + [a], filter)
    ensures Wanted(a.edgeType, filter) ==> Resolve(edges, side, id, a) in Answers(edges, side, id, init + [a], filter)
  {
    assert (init + [a])[..|init + [a]| - 1] == init;
  }

  lemma {:induction false} EntryIsAnswered(edges: map<string, Edge>, side: Side, id: int, list: seq<Entry>,
                                           filter: Option<string>, e: Edge, i: int)
    requires AnswersAt(edges, side, id, list, filter, e, i)
    ensures e in Answers(edges, side, id, list, filter)
  {
    var init, last := list[..|list| - 1], list[|list| - 1];
    assert init + [last] == list;
    LastEntryAnswered(edges, side, id, init, last, filter);
    if i < |init| {
      EntryIsAnswered(edges, side, id, init, filter, e, i);
    }
  }

  /** What an entry resolves to is the edge between the two nodes, of the entry's type. */
  lemma ResolveKey(s: State, side: Side, id: int, a: Entry)
    requires KeyedByEdge(s)
    ensures var e := Resolve(s.edges, side, id, a);
      && KeyOf(e) == KeyAt(side, id, a) && Near(side, e) == id
      && SameEdge(EntryOf(side, e), a)
  {
    var e := Resolve(s.edges, side, id, a);
    var from, to := if side.Outgoing? then id else a.node, if side.Outgoing? then a.node else id;
    assert KeyAt(side, id, a) == Key(from, to, a.edgeType);
    assert KeyOf(e) == Key(from, to, a.edgeType);
    KeysAreInjective(e.from, e.to, e.edgeType, from, to, a.edgeType);
  }

  ghost predicate Stored(s: State, e: Edge) {
    KeyOf(e) in s.edges && s.edges[KeyOf(e)] == e
  }

  /** Listed at the node but missing from the table. */
  ghost predicate Dangles(s: State, side: Side, id: int, e: Edge) {
    exists i :: 0 <= i < |ListOf(s, side, id)| && KeyAt(side, id, ListOf(s, side, id)[i]) !in s.edges
      && e == Fallback(side, id, ListOf(s, side, id)[i])
  }

  /** An outgoing read, in the fields of the edges. */
  lemma OutgoingMeans(s: State, id: int, filter: Option<string>, e: Edge)
    requires Inv(s)
    ensures var list := if id in s.outgoing then s.outgoing[id] else [];
      var key := Key(e.from, e.to, e.edgeType);
      e in Answers(s.edges, Outgoing, id, list, filter) <==>
        && e.from == id && (filter.Some? ==> e.edgeType == filter.value)
        && if key in s.edges then s.edges[key] == e
           else e.timestamp == 0.0 && Entry(e.to, e.edgeType, e.weight) in list
  {
    AnswersExactly(s, Outgoing, id, filter, e);
    DanglesMeans(s, Outgoing, id, e);
  }

  /** And an incoming one. */
  lemma IncomingMeans(s: State, id: int, filter: Option<string>, e: Edge)
    requires Inv(s)
    ensures var list := if id in s.incoming then s.incoming[id] else [];
      var key := Key(e.from, e.to, e.edgeType);
      e in Answers(s.edges, Incoming, id, list, filter) <==>
        && e.to == id && (filter.Some? ==> e.edgeType == filter.value)
        && if key in s.edges then s.edges[key] == e
           else e.timestamp == 0.0 && Entry(e.from, e.edgeType, e.weight) in list
  {
    AnswersExactly(s, Incoming, id, filter, e);
    DanglesMeans(s, Incoming, id, e);
  }

  lemma DanglesMeans(s: State, side: Side, id: int, e: Edge)
    ensures Dangles(s, side, id, e) <==>
      && Near(side, e) == id && e.timestamp == 0.0 && KeyOf(e) !in s.edges
      && EntryOf(side, e) in ListOf(s, side, id)
  {
    var list := ListOf(s, side, id);
    if EntryOf(side, e) in list && Near(side, e) == id && e.timestamp == 0.0 {
      var i :| 0 <= i < |list| && list[i] == EntryOf(side, e);
      assert e == Fallback(side, id, list[i]);
      assert KeyAt(side, id, list[i]) == KeyOf(e);
    }
  }

  /** Exactly the node's stored edges of the wanted type, and the fallback of each wanted
      entry that dangles. */
  lemma AnswersExactly(s: State, side: Side, id: int, filter: Option<string>, e: Edge)
    requires Inv(s)
    ensures e in Answers(s.edges, side, id, ListOf(s, side, id), filter) <==>
      Wanted(e.edgeType, filter) && ((Stored(s, e) && Near(side, e) == id) || Dangles(s, side, id, e))
  {
    var list := ListOf(s, side, id);
    if e in Answers(s.edges, side, id, list, filter) {
      AnswerHasEntry(s.edges, side, id, list, filter, e);
      var i :| AnswersAt(s.edges, side, id, list, filter, e, i);
      ResolveKey(s, side, id, list[i]);
    }
    if Wanted(e.edgeType, filter) {
      if Stored(s, e) && Near(side, e) == id {
        StoredIsAnswered(s, side, id, filter, e);
      } else if Dangles(s, side, id, e) {
        var i :| 0 <= i < |list| && KeyAt(side, id, list[i]) !in s.edges && e == Fallback(side, id, list[i]);
        EntryIsAnswered(s.edges, side, id, list, filter, e, i);
      }
    }
  }

  lemma StoredIsAnswered(s: State, side: Side, id: int, filter: Option<string>, e: Edge)
    requires Inv(s) && Stored(s, e) && Near(side, e) == id && Wanted(e.edgeType, filter)
    ensures e in Answers(s.edges, side, id, ListOf(s, side, id), filter)
  {
    var list := ListOf(s, side, id);
    assert Lists(list, EntryOf(side, e));
    var i :| 0 <= i < |list| && SameEdge(list[i], EntryOf(side, e));
    assert KeyAt(side, id, list[i]) == KeyOf(e);
    EntryIsAnswered(s.edges, side, id, list, filter, e, i);
  }

  ghost predicate DistinctKeys(edges: seq<Edge>) {
    forall i, j :: 0 <= i < j < |edges| ==> KeyOf(edges[i]) != KeyOf(edges[j])
  }

  lemma NewEntryNewKey(s: State, side: Side, id: int, list: seq<Entry>, filter: Option<string>, a: Entry, e: Edge)
    requires KeyedByEdge(s) && e in Answers(s.edges, side, id, list, filter)
    requires forall i :: 0 <= i < |list| ==> !SameEdge(list[i], a)
    ensures KeyOf(e) != KeyOf(Resolve(s.edges, side, id, a))
  {
    AnswerHasEntry(s.edges, side, id, list, filter, e);
    var i :| AnswersAt(s.edges, side, id, list, filter, e, i);
    var b, f := list[i], Resolve(s.edges, side, id, a);
    ResolveKey(s, side, id, a);
    ResolveKey(s, side, id, b);
    assert !SameEdge(b, a);
    if KeyOf(e) == KeyOf(f) {
      KeysAreInjective(e.from, e.to, e.edgeType, f.from, f.to, f.edgeType);
    }
  }

  lemma SnocDistinct(s: seq<Edge>, e: Edge)
    requires DistinctKeys(s) && forall f :: f in s ==> KeyOf(f) != KeyOf(e)
    ensures DistinctKeys(s + [e])
  {
  }

  /** No edge is answered twice. */
  lemma {:induction false} AnswersAreDistinct(s: State, side: Side, id: int, list: seq<Entry>, filter: Option<string>)
    requires KeyedByEdge(s) && NoRepeats(list)
    ensures DistinctKeys(Answers(s.edges, side, id, list, filter))
  {
    if list == [] {
    } else {
      var init, a := list[..|list| - 1], list[|list| - 1];
      AnswersAreDistinct(s, side, id, init, filter);
      var rest := Answers(s.edges, side, id, init, filter);
      forall e | e in rest ensures KeyOf(e) != KeyOf(Resolve(s.edges, side, id, a)) {
        NewEntryNewKey(s, side, id, init, filter, a, e);
      }
      SnocDistinct(rest, Resolve(s.edges, side, id, a));
    }
  }

  /** As long as no node was deleted with its edges, a read returns exactly the latest edges
      of the node, each once. */
  lemma ReadsAreLatest(ops: seq<Op>, side: Side, id: int, filter: Option<string>, e: Edge)
    requires forall i :: 0 <= i < |ops| ==> ops[i].PutEdge?
    ensures var s := Run(ops);
      && DistinctKeys(Answers(s.edges, side, id, ListOf(s, side, id), filter))
      && (e in Answers(s.edges, side, id, ListOf(s, side, id), filter) <==>
            Near(side, e) == id && Wanted(e.edgeType, filter) && Latest(ops, KeyOf(e)) == Some(e))
  {
    var s := Run(ops);
    EveryRunKeepsInv(ops);
    NoCascadeNoDangling(ops);
    assert Backed(s.edges, side, id, ListOf(s, side, id));
    AnswersExactly(s, side, id, filter, e);
    assert NoRepeats(ListOf(s, side, id));
    AnswersAreDistinct(s, side, id, ListOf(s, side, id), filter);
    TableIsLatest(ops, KeyOf(e));
  }

  function Far(side: Side, e: Edge): int {
    if side.Outgoing? then e.to else e.from
  }

  /** What the history leaves to be read of an edge: its latest put, or, when a cascade took that
      but the node still lists it, an edge with timestamp 0 and the weight it was listed with. */
  predicate Readable(ops: seq<Op>, side: Side, id: int, e: Edge) {
    Near(side, e) == id &&
    match Latest(ops, KeyOf(e))
    case Some(stored) => e == stored
    case None => e.timestamp == 0.0 && Listed(ops, side, id, Far(side, e), e.edgeType) == Some(e.weight)
  }

  lemma DanglesIff(s: State, side: Side, id: int, e: Edge, weight: Option<real>)
    requires NoRepeats(ListOf(s, side, id)) && Says(ListOf(s, side, id), Far(side, e), e.edgeType, weight)
    ensures Dangles(s, side, id, e) <==>
      Near(side, e) == id && KeyOf(e) !in s.edges && e.timestamp == 0.0 && weight == Some(e.weight)
  {
    var list := ListOf(s, side, id);
    if Dangles(s, side, id, e) {
      var i :| 0 <= i < |list| && KeyAt(side, id, list[i]) !in s.edges && e == Fallback(side, id, list[i]);
      assert SameEdge(list[i], Entry(Far(side, e), e.edgeType, 0.0));
      var j :| 0 <= j < |list| && list[j] == Entry(Far(side, e), e.edgeType, weight.value);
      assert SameEdge(list[i], list[j]) && SameEdge(list[j], list[i]);
      assert i == j;
    }
    if Near(side, e) == id && KeyOf(e) !in s.edges && e.timestamp == 0.0 && weight == Some(e.weight) {
      var i :| 0 <= i < |list| && list[i] == Entry(Far(side, e), e.edgeType, e.weight);
      assert e == Fallback(side, id, list[i]) && KeyAt(side, id, list[i]) == KeyOf(e);
    }
  }

  /** After any run, cascades included, a read of one side returns exactly what the history leaves
      to be read of the wanted type, each edge once. */
  lemma ReadsAreHistory(ops: seq<Op>, side: Side, id: int, filter: Option<string>, e: Edge)
    ensures var s := Run(ops);
      && DistinctKeys(Answers(s.edges, side, id, ListOf(s, side, id), filter))
      && (e in Answers(s.edges, side, id, ListOf(s, side, id), filter) <==>
            Wanted(e.edgeType, filter) && Readable(ops, side, id, e))
  {
    var s := Run(ops);
    EveryRunKeepsInv(ops);
    assert NoRepeats(ListOf(s, side, id));
    AnswersAreDistinct(s, side, id, ListOf(s, side, id), filter);
    AnswersExactly(s, side, id, filter, e);
    TableIsLatest(ops, KeyOf(e));
    ListIsHistory(ops, side, id, Far(side, e), e.edgeType);
    DanglesIff(s, side, id, e, Listed(ops, side, id, Far(side, e), e.edgeType));
  }

  /** After a cascade, a surviving neighbour still lists the deleted edge, and reads return
      it with timestamp 0 and the weight it was first put with. */
  lemma CascadeLeavesEcho(s: State, id: int, e: Edge, side: Side, i: int)
    requires Inv(s) && Stored(s, e) && Near(side, e) != id && EntryOf(side, e).node == id
    requires 0 <= i < |ListOf(s, side, Near(side, e))| && SameEdge(ListOf(s, side, Near(side, e))[i], EntryOf(side, e))
    ensures var t := Cascade(s, id);
      && KeyOf(e) !in t.edges
      && e.(weight := ListOf(s, side, Near(side, e))[i].weight, timestamp := 0.0)
           in Answers(t.edges, side, Near(side, e), ListOf(t, side, Near(side, e)), None)
  {
    var t, n := Cascade(s, id), Near(side, e);
    TouchesExactly(e.from, e.to, e.edgeType, id);
    CascadeList(s, id, side, n);
    var list := ListOf(s, side, n);
    assert KeyAt(side, n, list[i]) == KeyOf(e);
    EntryIsAnswered(t.edges, side, n, list, None, e.(weight := list[i].weight, timestamp := 0.0), i);
  }

  // ---- The store ----

  datatype Direction = OnlyOutgoing | OnlyIncoming | Both

  class EdgeStore {
    var edges: map<string, Edge>
    var adjOut: map<int, seq<Entry>>
    var adjIn: map<int, seq<Entry>>
    var edgeCount: int

    ghost function Value(): State
      reads this
    {
      State(edges, adjOut, adjIn)
    }

    ghost predicate Valid()
      reads this
    {
      Inv(Value()) && edgeCount == |edges|
    }

    constructor ()
      ensures Valid() && Value() == EMPTY
    {
      edges, adjOut, adjIn, edgeCount := map[], map[], map[], 0;
    }

    /** Answers whether the edge is new. */
    method PutEdge(edge: Edge) returns (isNew: bool)
      requires Valid()
      modifies this
      ensures Valid() && Value() == Put(old(Value()), edge)
      ensures isNew == (KeyOf(edge) !in old(edges))
    {
      PutKeepsInv(Value(), edge);
      var key := KeyOf(edge);
      var existed := key in edges;
      adjOut := adjOut[edge.from := WithEntry(Lookup(adjOut, edge.from), Entry(edge.to, edge.edgeType, edge.weight))];
      adjIn := adjIn[edge.to := WithEntry(Lookup(adjIn, edge.to), Entry(edge.from, edge.edgeType, edge.weight))];
      edges := edges[key := edge];
      if !existed {
        edgeCount := edgeCount + 1;
      }
      isNew := !existed;
    }

    method Collect(side: Side, id: int, list: seq<Entry>, filter: Option<string>) returns (found: seq<Edge>)
      ensures found == Answers(edges, side, id, list, filter)
    {
      found := [];
      for i := 0 to |list|
        invariant found == Answers(edges, side, id, list[..i], filter)
      {
        var a := list[i];
        assert list[..i + 1][..i] == list[..i];
        if filter.None? || filter.value == a.edgeType {
          var key := KeyAt(side, id, a);
          if key in edges {
            found := found + [edges[key]];
          } else {
            found := found + [Fallback(side, id, a)];
          }
        }
      }
      assert list[..|list|] == list;
    }

    method GetEdges(id: int, direction: Direction, filter: Option<string>) returns (found: seq<Edge>)
      ensures var out, inc := Answers(edges, Outgoing, id, ListOf(Value(), Outgoing, id), filter),
                              Answers(edges, Incoming, id, ListOf(Value(), Incoming, id), filter);
        found == match direction
                 case OnlyOutgoing => out
                 case OnlyIncoming => inc
                 case Both => out + inc
    {
      found := [];
      if !direction.OnlyIncoming? {
        found := Collect(Outgoing, id, Lookup(adjOut, id), filter);
      }
      if !direction.OnlyOutgoing? {
        var more := Collect(Incoming, id, Lookup(adjIn, id), filter);
        found := found + more;
      }
    }

    /** The keys the scan takes, counted one by one. */
    method TouchedKeys(id: int, scan: seq<string>) returns (batch: set<string>, removed: nat)
      requires forall i, j :: 0 <= i < j < |scan| ==> scan[i] != scan[j]
      ensures forall k :: k in batch <==> k in scan && Touches(k, id)
      ensures removed == |batch|
    {
      batch, removed := {}, 0;
      for i := 0 to |scan|
        invariant forall k :: k in batch <==> k in scan[..i] && Touches(k, id)
        invariant removed == |batch|
      {
        assert scan[..i + 1] == scan[..i] + [scan[i]];
        if Touches(scan[i], id) {
          batch := batch + {scan[i]};
          removed := removed + 1;
        }
      }
      assert scan[..|scan|] == scan;
    }

    /** The edge half of a cascading delete; `scan` is the table's iteration order. */
    method CascadeDelete(id: int, scan: seq<string>) returns (removed: nat)
      requires Valid()
      requires forall k :: k in edges <==> k in scan
      requires forall i, j :: 0 <= i < j < |scan| ==> scan[i] != scan[j]
      modifies this
      ensures Valid() && Value() == Cascade(old(Value()), id)
      ensures removed == |old(edges)| - |edges|
    {
      ghost var before := Value();
      CascadeKeepsInv(before, id);
      var batch;
      batch, removed := TouchedKeys(id, scan);
      BatchIsCascade(edges, batch, id);
      BatchSize(edges, batch);
      adjOut, adjIn := adjOut - {id}, adjIn - {id};
      edges := edges - batch;
      edgeCount := edgeCount - removed;
      assert Value() == Cascade(before, id);
    }
  }

  lemma BatchIsCascade(edges: map<string, Edge>, batch: set<string>, id: int)
    requires forall k :: k in batch <==> k in edges && Touches(k, id)
    ensures edges - batch == map k | k in edges && !Touches(k, id) :: edges[k]
  {
  }

  lemma BatchSize(edges: map<string, Edge>, batch: set<string>)
    requires batch <= edges.Keys
    ensures |edges - batch| == |edges| - |batch|
  {
    assert (edges - batch).Keys == edges.Keys - batch;
    assert edges.Keys == (edges.Keys - batch) + batch;
  }
}
