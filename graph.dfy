/// The node/edge projection shared by every revision's
/// `generate_neptune_files`: one node per table, one edge per mapping.
/// Only the in-memory records are modelled, not the JSON lines written.
module Graph {
  import opened Text

  /** Statement provenance that the canonical engine attaches to a mapping. */
  datatype Stamp = Stamp(timestamp: Option<string>, kind: string)

  /** One source-to-target record; `stamp` is None in the revisions that keep only the pair. */
  datatype Mapping = Mapping(source: string, target: string, stamp: Option<Stamp>)

  /** A graph vertex: `~id`, `~label` (as `tag`), `name` and, in one revision, `schema`. */
  datatype Node = Node(id: string, tag: string, name: string, schema: Option<string>)

  /** A graph edge: `~id`, `~from`, `~to`, `~label` (as `tag`) and the optional provenance. */
  datatype Edge = Edge(id: string, from: string, to: string, tag: string, stamp: Option<Stamp>)

  const EdgeLabel := "TO_TARGET"

  /** `table.split('.')[-1]` */
  function Label(table: string): string {
    Last(SplitOn(table, '.'))
  }

  /** `'.'.join(parts[:-1]) if len(parts) > 1 else 'default'` */
  function Schema(table: string): string {
    var parts := SplitOn(table, '.');
    if |parts| > 1 then JoinOn(parts[..|parts| - 1], '.') else "default"
  }

  /** A dotted name is exactly its schema, a dot and its label. */
  lemma SchemaLabelRoundTrip(table: string)
    requires '.' in table
    ensures table == Schema(table) + "." + Label(table)
  {
    var parts := SplitOn(table, '.');
    SplitOnSingle(table, '.');
    assert |parts| > 1;
    assert Schema(table) == JoinOn(parts[..|parts| - 1], '.');
    assert Label(table) == parts[|parts| - 1];
    JoinOnLast(parts, '.');
    JoinSplit(table, '.');
    assert ['.'] == ".";
  }

  /** A name without a dot is its own label and has the default schema. */
  lemma UndottedLabel(table: string)
    requires '.' !in table
    ensures Label(table) == table && Schema(table) == "default"
  {
    SplitOnSingle(table, '.');
    JoinSplit(table, '.');
  }

  /** `f'e{idx}'` */
  function EdgeId(i: nat): string {
    "e" + NatToString(i)
  }

  lemma EdgeIdInjective(i: nat, j: nat)
    requires EdgeId(i) == EdgeId(j)
    ensures i == j
  {
    assert NatToString(i) == EdgeId(i)[1..] == EdgeId(j)[1..] == NatToString(j);
    NatToStringInjective(i, j);
  }

  function NodeFor(table: string, withSchema: bool): Node {
    Node(table, Label(table), table, if withSchema then Some(Schema(table)) else None)
  }

  /** Every name in `ids` is the id of some node. */
  ghost predicate Covers(nodes: seq<Node>, ids: set<string>) {
    forall t :: t in ids ==> exists k :: 0 <= k < |nodes| && nodes[k].id == t
  }

  /** No two nodes share an id. */
  ghost predicate DistinctIds(nodes: seq<Node>) {
    forall k, l :: 0 <= k < l < |nodes| ==> nodes[k].id != nodes[l].id
  }

  /** One turn of the node loop: the node for `t`, taken from the tables not
      yet visited, has a new id, and the visited tables grow by `t`. */
  lemma AppendNode(nodes: seq<Node>, tables: set<string>, rest: set<string>, t: string, withSchema: bool)
    requires t in rest && rest <= tables
    requires forall k :: 0 <= k < |nodes| ==> nodes[k].id in tables - rest
    requires Covers(nodes, tables - rest) && DistinctIds(nodes)
    ensures Covers(nodes + [NodeFor(t, withSchema)], tables - (rest - {t}))
    ensures DistinctIds(nodes + [NodeFor(t, withSchema)])
  {
    var after := nodes + [NodeFor(t, withSchema)];
    assert after[|nodes|].id == t;
    forall u | u in tables - (rest - {t})
      ensures exists k :: 0 <= k < |after| && after[k].id == u
    {
      if u != t {
        assert u in tables - rest;
        var k :| 0 <= k < |nodes| && nodes[k].id == u;
        assert after[k].id == u;
      }
    }
  }

  /** The node loop: one node per table of the registry union, in set-iteration order. */
  method ProjectNodes(tables: set<string>, withSchema: bool) returns (nodes: seq<Node>)
    ensures |nodes| == |tables|
    ensures forall k :: 0 <= k < |nodes| ==> nodes[k].id in tables && nodes[k] == NodeFor(nodes[k].id, withSchema)
    ensures forall t :: t in tables ==> exists k :: 0 <= k < |nodes| && nodes[k].id == t
    ensures forall k, l :: 0 <= k < l < |nodes| ==> nodes[k].id != nodes[l].id
  {
    nodes := [];
    var rest := tables;
    while rest != {}
      invariant rest <= tables
      invariant |nodes| + |rest| == |tables|
      invariant forall k :: 0 <= k < |nodes| ==> nodes[k].id in tables - rest && nodes[k] == NodeFor(nodes[k].id, withSchema)
      invariant Covers(nodes, tables - rest) && DistinctIds(nodes)
      decreases |rest|
    {
      var t :| t in rest;
      AppendNode(nodes, tables, rest, t, withSchema);
      nodes := nodes + [NodeFor(t, withSchema)];
      rest := rest - {t};
    }
    assert tables - rest == tables;
  }

  /** The edge loop over `enumerate(mappings)`: edge k is mapping k, with id `e{k}`. */
  method ProjectEdges(ms: seq<Mapping>) returns (edges: seq<Edge>)
    ensures |edges| == |ms|
    ensures forall k :: 0 <= k < |ms| ==>
      edges[k] == Edge(EdgeId(k), ms[k].source, ms[k].target, EdgeLabel, ms[k].stamp)
    ensures forall k, l :: 0 <= k < l < |edges| ==> edges[k].id != edges[l].id
  {
    edges := [];
    var i := 0;
    while i < |ms|
      invariant i <= |ms| && |edges| == i
      invariant forall k :: 0 <= k < i ==>
        edges[k] == Edge(EdgeId(k), ms[k].source, ms[k].target, EdgeLabel, ms[k].stamp)
    {
      edges := edges + [Edge(EdgeId(i), ms[i].source, ms[i].target, EdgeLabel, ms[i].stamp)];
      i := i + 1;
    }
    forall k, l | 0 <= k < l < |edges|
      ensures edges[k].id != edges[l].id
    {
      if edges[k].id == edges[l].id {
        EdgeIdInjective(k, l);
      }
    }
  }

  function PairsOf(ms: seq<Mapping>): set<(string, string)> {
    set k | 0 <= k < |ms| :: (ms[k].source, ms[k].target)
  }

  function EdgePairs(es: seq<Edge>): set<(string, string)> {
    set k | 0 <= k < |es| :: (es[k].from, es[k].to)
  }

  /** Reading the projected edges back gives the mapping list's (source, target) pairs. */
  lemma EdgesRoundTrip(ms: seq<Mapping>, edges: seq<Edge>)
    requires |edges| == |ms|
    requires forall k :: 0 <= k < |ms| ==> edges[k].from == ms[k].source && edges[k].to == ms[k].target
    ensures EdgePairs(edges) == PairsOf(ms)
  {
    forall p | p in PairsOf(ms) ensures p in EdgePairs(edges) {
      var k :| 0 <= k < |ms| && p == (ms[k].source, ms[k].target);
      assert (edges[k].from, edges[k].to) == p;
    }
  }
}
