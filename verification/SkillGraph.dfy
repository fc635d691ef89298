/** Loading of harness/unified_skill_graph.py: the constructor's checks and the
    name, id and edge tables it builds. */
module SkillGraph {
  import opened Options
  import opened Digraph
  import DepthFirst

  /** Node kinds; `Missing` is an absent or empty one. */
  datatype Kind = ObservedSkill | CanonicalSkill | Category | Root | Other(text: string) | Missing

  /** The closed relation vocabulary, and anything else. */
  datatype Relation = IsA | HasStage | Realizes | DecomposesTo | ObservedTransition | Unlisted(text: string)

  datatype GraphNode = GraphNode(id: string, name: string, kind: Kind, stage: string)

  /** `order` is None when the edge carries no int order. */
  datatype GraphEdge = GraphEdge(relation: Relation, source: string, target: string, order: Option<int>)

  datatype Document = Document(supported: bool, root: string, nodes: seq<GraphNode>, edges: seq<GraphEdge>)

  type EdgeTable = map<(string, Relation), seq<GraphEdge>>

  datatype Loaded = Loaded(nodes: map<string, GraphNode>, byName: map<string, string>, edges: EdgeTable)

  datatype LoadError =
    | UnsupportedVersion | MalformedNode | DuplicateId | NameClaimed | UnknownRoot
    | UnknownRelation | UnknownEnd | MissingOrder | Cyclic(relation: Relation, cycle: seq<string>)

  datatype LoadResult = Ready(graph: Loaded) | Rejected(error: LoadError)

  predicate IsSkill(kind: Kind) {
    kind.ObservedSkill? || kind.CanonicalSkill?
  }

  predicate IsNamed(kind: Kind) {
    IsSkill(kind) || kind.Category? || kind.Root?
  }

  // ---------------------------------------------------------- specification

  function NameOf(n: GraphNode): (r: string) {
    if n.name == [] then n.id else n.name
  }

  /** Skills are the observed and the canonical ones; names are claimed by these, by
      categories and by the root. */
  lemma {:induction false} KindsAre(kind: Kind)
    ensures IsSkill(kind) <==> kind in {ObservedSkill, CanonicalSkill}
    ensures IsNamed(kind) <==> kind in {ObservedSkill, CanonicalSkill, Category, Root}
  {
  }

  predicate NodeOk(n: GraphNode) {
    n.id != [] && !n.kind.Missing?
  }

  /** Unique ids, and unique names among skills, categories and roots. */
  predicate NodesOk(nodes: seq<GraphNode>) {
    && (forall i :: 0 <= i < |nodes| ==> NodeOk(nodes[i]))
    && (forall i, j :: 0 <= i < j < |nodes| ==> nodes[i].id != nodes[j].id)
    && (forall i, j :: 0 <= i < j < |nodes| && IsNamed(nodes[i].kind) && IsNamed(nodes[j].kind) ==>
          NameOf(nodes[i]) != NameOf(nodes[j]))
  }

  predicate HasId(nodes: seq<GraphNode>, id: string) {
    exists i :: 0 <= i < |nodes| && nodes[i].id == id
  }

  predicate EdgeOk(nodes: seq<GraphNode>, e: GraphEdge) {
    && !e.relation.Unlisted? && HasId(nodes, e.source) && HasId(nodes, e.target)
    && (e.relation.HasStage? || e.relation.DecomposesTo? ==> e.order.Some?)
  }

  predicate EdgesOk(nodes: seq<GraphNode>, edges: seq<GraphEdge>) {
    forall i :: 0 <= i < |edges| ==> EdgeOk(nodes, edges[i])
  }

  /** The edges of one relation out of one node, in document order. */
  function OutEdges(edges: seq<GraphEdge>, source: string, relation: Relation): (r: seq<GraphEdge>) {
    if edges == [] then []
    else
      var last := edges[|edges| - 1];
      OutEdges(edges[..|edges| - 1], source, relation)
      + if last.source == source && last.relation == relation then [last] else []
  }

  function Targets(edges: seq<GraphEdge>): (r: seq<string>)
    ensures |r| == |edges| && forall i :: 0 <= i < |edges| ==> r[i] == edges[i].target
  {
    if edges == [] then [] else [edges[0].target] + Targets(edges[1..])
  }

  function Lookup(edges: EdgeTable, id: string, relation: Relation): (r: seq<GraphEdge>) {
    if (id, relation) in edges then edges[(id, relation)] else []
  }

  function Out(g: Loaded, id: string, relation: Relation): (r: seq<GraphEdge>) {
    Lookup(g.edges, id, relation)
  }

  /** One relation of a loaded graph as adjacency lists. */
  function RelationGraph(g: Loaded, relation: Relation): (r: Graph) {
    map id | id in g.nodes :: Targets(Out(g, id, relation))
  }

  ghost predicate NodeTableOf(nodes: seq<GraphNode>, table: map<string, GraphNode>) {
    && (forall id :: id in table <==> HasId(nodes, id))
    && (forall i :: 0 <= i < |nodes| ==> nodes[i].id in table && table[nodes[i].id] == nodes[i])
  }

  /** Names of skills, categories and roots, and no other, lead to their nodes. */
  ghost predicate NameTableOf(nodes: seq<GraphNode>, byName: map<string, string>) {
    && (forall i :: 0 <= i < |nodes| && IsNamed(nodes[i].kind) ==>
          NameOf(nodes[i]) in byName && byName[NameOf(nodes[i])] == nodes[i].id)
    && (forall name :: name in byName ==> Names(nodes, name, byName[name]))
  }

  predicate Names(nodes: seq<GraphNode>, name: string, id: string) {
    exists i :: 0 <= i < |nodes| && nodes[i].id == id && IsNamed(nodes[i].kind) && NameOf(nodes[i]) == name
  }

  ghost predicate EdgeTableOf(edges: seq<GraphEdge>, out: EdgeTable) {
    forall id, relation :: Lookup(out, id, relation) == OutEdges(edges, id, relation)
  }

  /** The tables are those of the document. */
  ghost predicate TablesOf(doc: Document, g: Loaded) {
    NodeTableOf(doc.nodes, g.nodes) && NameTableOf(doc.nodes, g.byName) && EdgeTableOf(doc.edges, g.edges)
  }

  predicate BasicsOk(doc: Document) {
    doc.supported && NodesOk(doc.nodes) && (doc.root == [] || HasId(doc.nodes, doc.root))
    && EdgesOk(doc.nodes, doc.edges)
  }

  /** The document's relation as adjacency lists. */
  function DocRelation(doc: Document, relation: Relation): (r: Graph) {
    map id | id in IdList(doc.nodes) :: Targets(OutEdges(doc.edges, id, relation))
  }

  ghost predicate Acceptable(doc: Document) {
    BasicsOk(doc) && Acyclic(DocRelation(doc, IsA)) && Acyclic(DocRelation(doc, DecomposesTo))
  }

  ghost predicate NodeFault(nodes: seq<GraphNode>, error: LoadError) {
    match error
    case MalformedNode => exists i :: 0 <= i < |nodes| && !NodeOk(nodes[i])
    case DuplicateId => exists i, j :: 0 <= i < j < |nodes| && nodes[i].id == nodes[j].id
    case NameClaimed => exists i, j :: 0 <= i < j < |nodes| && SameClaim(nodes[i], nodes[j])
    case _ => false
  }

  predicate EdgeFaulty(nodes: seq<GraphNode>, e: GraphEdge, error: LoadError) {
    match error
    case UnknownRelation => e.relation.Unlisted?
    case UnknownEnd => !EndsKnown(nodes, e)
    case MissingOrder => LacksOrder(e)
    case _ => false
  }

  ghost predicate EdgeFault(nodes: seq<GraphNode>, edges: seq<GraphEdge>, error: LoadError) {
    exists i :: 0 <= i < |edges| && EdgeFaulty(nodes, edges[i], error)
  }

  /** What a refusal says of the document. */
  ghost predicate Justified(doc: Document, error: LoadError) {
    match error
    case UnsupportedVersion => !doc.supported
    case UnknownRoot => doc.root != [] && !HasId(doc.nodes, doc.root)
    case Cyclic(relation, cycle) =>
      (relation == IsA || relation == DecomposesTo) && DepthFirst.Cycle(DocRelation(doc, relation), cycle)
    case _ => NodeFault(doc.nodes, error) || EdgeFault(doc.nodes, doc.edges, error)
  }

  predicate SameClaim(a: GraphNode, b: GraphNode) {
    IsNamed(a.kind) && IsNamed(b.kind) && NameOf(a) == NameOf(b)
  }

  predicate EndsKnown(nodes: seq<GraphNode>, e: GraphEdge) {
    HasId(nodes, e.source) && HasId(nodes, e.target)
  }

  predicate LacksOrder(e: GraphEdge) {
    (e.relation.HasStage? || e.relation.DecomposesTo?) && e.order.None?
  }

  // ------------------------------------------------------------ the loader

  lemma {:induction false} AddNode(nodes: seq<GraphNode>, n: GraphNode, table: map<string, GraphNode>)
    requires NodeTableOf(nodes, table) && n.id !in table
    ensures NodeTableOf(nodes + [n], table[n.id := n])
  {
    HasIdSnoc(nodes, n);
    assert forall i :: 0 <= i < |nodes| ==> HasId(nodes, nodes[i].id);
  }

  lemma {:induction false} NamesSnoc(nodes: seq<GraphNode>, n: GraphNode, name: string, id: string)
    ensures Names(nodes, name, id) ==> Names(nodes + [n], name, id)
    ensures IsNamed(n.kind) ==> Names(nodes + [n], NameOf(n), n.id)
  {
    var all := nodes + [n];
    assert all[|nodes|] == n;
    if Names(nodes, name, id) {
      var i :| 0 <= i < |nodes| && nodes[i].id == id && IsNamed(nodes[i].kind) && NameOf(nodes[i]) == name;
      assert all[i] == nodes[i];
    }
  }

  lemma {:induction false} AddName(nodes: seq<GraphNode>, n: GraphNode, byName: map<string, string>)
    requires NameTableOf(nodes, byName) && (IsNamed(n.kind) ==> NameOf(n) !in byName)
    ensures NameTableOf(nodes + [n], if IsNamed(n.kind) then byName[NameOf(n) := n.id] else byName)
  {
    var all := nodes + [n];
    var next := if IsNamed(n.kind) then byName[NameOf(n) := n.id] else byName;
    forall name | name in next
      ensures Names(all, name, next[name])
    {
      NamesSnoc(nodes, n, name, next[name]);
    }
    forall i | 0 <= i < |all| && IsNamed(all[i].kind)
      ensures NameOf(all[i]) in next && next[NameOf(all[i])] == all[i].id
    {
      assert i < |nodes| ==> all[i] == nodes[i];
    }
  }

  lemma {:induction false} NodesOkSnoc(nodes: seq<GraphNode>, n: GraphNode, table: map<string, GraphNode>,
                                       byName: map<string, string>)
    requires NodesOk(nodes) && NodeTableOf(nodes, table) && NameTableOf(nodes, byName)
    ensures NodesOk(nodes + [n]) <==> NodeOk(n) && n.id !in table && (IsNamed(n.kind) ==> NameOf(n) !in byName)
  {
    var all := nodes + [n];
    assert all[|nodes|] == n && forall i :: 0 <= i < |nodes| ==> all[i] == nodes[i];
    if n.id in table {
      var i :| 0 <= i < |nodes| && nodes[i].id == n.id;
      assert all[i].id == all[|nodes|].id;
    }
    if IsNamed(n.kind) && NameOf(n) in byName {
      var i :| 0 <= i < |nodes| && IsNamed(nodes[i].kind) && NameOf(nodes[i]) == NameOf(n);
      assert NameOf(all[i]) == NameOf(all[|nodes|]);
    }
  }

  lemma {:induction false} NodesOkPrefix(nodes: seq<GraphNode>, k: nat)
    requires k <= |nodes| && !NodesOk(nodes[..k])
    ensures !NodesOk(nodes)
  {
    assert forall i :: 0 <= i < k ==> nodes[..k][i] == nodes[i];
  }

  lemma {:induction false} IdTaken(nodes: seq<GraphNode>, k: nat, table: map<string, GraphNode>)
    requires k < |nodes| && NodeTableOf(nodes[..k], table) && nodes[k].id in table
    ensures NodeFault(nodes, DuplicateId)
  {
    var i :| 0 <= i < k && nodes[..k][i].id == nodes[k].id;
    assert nodes[i].id == nodes[k].id;
  }

  lemma {:induction false} NameTaken(nodes: seq<GraphNode>, k: nat, byName: map<string, string>)
    requires k < |nodes| && NameTableOf(nodes[..k], byName) && IsNamed(nodes[k].kind) && NameOf(nodes[k]) in byName
    ensures NodeFault(nodes, NameClaimed)
  {
    var i :| 0 <= i < k && IsNamed(nodes[..k][i].kind) && NameOf(nodes[..k][i]) == NameOf(nodes[k]);
    assert SameClaim(nodes[i], nodes[k]);
  }

  method LoadNodes(nodes: seq<GraphNode>) returns (table: map<string, GraphNode>, byName: map<string, string>,
                                                   error: Option<LoadError>)
    ensures error.None? <==> NodesOk(nodes)
    ensures error.None? ==> NodeTableOf(nodes, table) && NameTableOf(nodes, byName)
    ensures error.Some? ==> NodeFault(nodes, error.value)
  {
    table, byName, error := map[], map[], None;
    for k := 0 to |nodes|
      invariant error.None? && NodesOk(nodes[..k])
      invariant NodeTableOf(nodes[..k], table) && NameTableOf(nodes[..k], byName)
    {
      var n := nodes[k];
      assert nodes[..k + 1] == nodes[..k] + [n];
      NodesOkSnoc(nodes[..k], n, table, byName);
      if n.id == [] || n.kind.Missing? {
        error := Some(MalformedNode);
      } else if n.id in table {
        error := Some(DuplicateId);
        IdTaken(nodes, k, table);
      } else if IsNamed(n.kind) && NameOf(n) in byName {
        error := Some(NameClaimed);
        NameTaken(nodes, k, byName);
      }
      if error.Some? {
        NodesOkPrefix(nodes, k + 1);
        return;
      }
      AddNode(nodes[..k], n, table);
      AddName(nodes[..k], n, byName);
      table := table[n.id := n];
      byName := if IsNamed(n.kind) then byName[NameOf(n) := n.id] else byName;
    }
    assert nodes[..|nodes|] == nodes;
  }

  lemma {:induction false} HasIdSnoc(nodes: seq<GraphNode>, n: GraphNode)
    ensures forall id :: HasId(nodes + [n], id) <==> HasId(nodes, id) || n.id == id
  {
    forall id
      ensures HasId(nodes + [n], id) <==> HasId(nodes, id) || n.id == id
    {
      assert (nodes + [n])[|nodes|].id == n.id;
      if HasId(nodes, id) {
        var i :| 0 <= i < |nodes| && nodes[i].id == id;
        assert (nodes + [n])[i].id == id;
      }
    }
  }

  lemma {:induction false} AddEdge(edges: seq<GraphEdge>, e: GraphEdge, out: EdgeTable)
    requires EdgeTableOf(edges, out)
    ensures EdgeTableOf(edges + [e], out[(e.source, e.relation) := Lookup(out, e.source, e.relation) + [e]])
  {
    var all := edges + [e];
    assert all[..|edges|] == edges && all[|edges|] == e;
    var next := out[(e.source, e.relation) := Lookup(out, e.source, e.relation) + [e]];
    forall id, relation
      ensures Lookup(next, id, relation) == OutEdges(all, id, relation)
    {
      assert Lookup(out, id, relation) == OutEdges(edges, id, relation);
    }
  }

  method CheckEdge(nodes: seq<GraphNode>, table: map<string, GraphNode>,
                   e: GraphEdge) returns (error: Option<LoadError>)
    requires NodeTableOf(nodes, table)
    ensures error.None? <==> EdgeOk(nodes, e)
    ensures error.Some? ==> EdgeFaulty(nodes, e, error.value)
  {
    error := None;
    if e.relation.Unlisted? {
      error := Some(UnknownRelation);
    } else if e.source !in table || e.target !in table {
      error := Some(UnknownEnd);
    } else if (e.relation.HasStage? || e.relation.DecomposesTo?) && e.order.None? {
      error := Some(MissingOrder);
    }
  }

  method LoadEdges(nodes: seq<GraphNode>, table: map<string, GraphNode>, edges: seq<GraphEdge>)
    returns (out: EdgeTable, error: Option<LoadError>)
    requires NodeTableOf(nodes, table)
    ensures error.None? <==> EdgesOk(nodes, edges)
    ensures error.None? ==> EdgeTableOf(edges, out)
    ensures error.Some? ==> EdgeFault(nodes, edges, error.value)
  {
    out, error := map[], None;
    for k := 0 to |edges|
      invariant error.None? && forall i :: 0 <= i < k ==> EdgeOk(nodes, edges[i])
      invariant EdgeTableOf(edges[..k], out)
    {
      var e := edges[k];
      error := CheckEdge(nodes, table, e);
      if error.Some? {
        return;
      }
      assert edges[..k + 1] == edges[..k] + [e];
      AddEdge(edges[..k], e, out);
      out := out[(e.source, e.relation) := Lookup(out, e.source, e.relation) + [e]];
    }
    assert edges[..|edges|] == edges;
  }

  function IdList(nodes: seq<GraphNode>): (r: seq<string>)
    ensures |r| == |nodes| && forall i :: 0 <= i < |nodes| ==> r[i] == nodes[i].id
  {
    if nodes == [] then [] else [nodes[0].id] + IdList(nodes[1..])
  }

  lemma {:induction false} IdListHas(nodes: seq<GraphNode>, id: string)
    ensures id in IdList(nodes) <==> HasId(nodes, id)
  {
    if HasId(nodes, id) {
      var i :| 0 <= i < |nodes| && nodes[i].id == id;
      assert IdList(nodes)[i] == id;
    }
  }

  lemma {:induction false} RelationIsDocs(doc: Document, g: Loaded, relation: Relation)
    requires NodeTableOf(doc.nodes, g.nodes) && EdgeTableOf(doc.edges, g.edges)
    ensures RelationGraph(g, relation) == DocRelation(doc, relation)
    ensures Elements(IdList(doc.nodes)) == RelationGraph(g, relation).Keys
  {
    forall id
      ensures id in IdList(doc.nodes) <==> id in g.nodes
    {
      IdListHas(doc.nodes, id);
    }
    SameLists(doc, g, relation);
  }

  lemma {:induction false} SameLists(doc: Document, g: Loaded, relation: Relation)
    requires EdgeTableOf(doc.edges, g.edges) && forall id :: id in IdList(doc.nodes) <==> id in g.nodes
    ensures RelationGraph(g, relation) == DocRelation(doc, relation)
  {
    forall id | id in g.nodes
      ensures RelationGraph(g, relation)[id] == DocRelation(doc, relation)[id]
    {
      assert Lookup(g.edges, id, relation) == OutEdges(doc.edges, id, relation);
    }
  }

  lemma {:induction false} OutEdgeIsEdge(edges: seq<GraphEdge>, source: string, relation: Relation, e: GraphEdge)
    requires e in OutEdges(edges, source, relation)
    ensures e in edges && e.source == source && e.relation == relation
  {
    var init := edges[..|edges| - 1];
    if e in OutEdges(init, source, relation) {
      OutEdgeIsEdge(init, source, relation, e);
    }
  }

  lemma {:induction false} RelationClosed(doc: Document, g: Loaded, relation: Relation)
    requires NodeTableOf(doc.nodes, g.nodes) && EdgeTableOf(doc.edges, g.edges) && EdgesOk(doc.nodes, doc.edges)
    ensures Closed(RelationGraph(g, relation))
  {
    forall x, y | Edge(RelationGraph(g, relation), x, y)
      ensures y in RelationGraph(g, relation)
    {
      var es := Out(g, x, relation);
      var i :| 0 <= i < |es| && Targets(es)[i] == y;
      OutEdgeIsEdge(doc.edges, x, relation, es[i]);
      var j :| 0 <= j < |doc.edges| && doc.edges[j] == es[i];
      assert EdgeOk(doc.nodes, doc.edges[j]);
    }
  }

  /** The acyclicity check of one relation of the freshly built tables. */
  method CheckRelation(doc: Document, g: Loaded, relation: Relation) returns (cycle: Option<seq<string>>)
    requires NodeTableOf(doc.nodes, g.nodes) && EdgeTableOf(doc.edges, g.edges) && EdgesOk(doc.nodes, doc.edges)
    ensures cycle.None? <==> Acyclic(DocRelation(doc, relation))
    ensures cycle.Some? ==> DepthFirst.Cycle(DocRelation(doc, relation), cycle.value)
  {
    RelationIsDocs(doc, g, relation);
    RelationClosed(doc, g, relation);
    cycle := DepthFirst.AssertAcyclic(RelationGraph(g, relation), IdList(doc.nodes));
  }

  /** The constructor: accepts exactly the acceptable documents, with their
      tables; a refusal names a fault the document has, a cycle a real one. */
  method Load(doc: Document) returns (r: LoadResult)
    ensures r.Ready? <==> Acceptable(doc)
    ensures r.Ready? ==> TablesOf(doc, r.graph)
    ensures r.Rejected? ==> Justified(doc, r.error)
  {
    if !doc.supported {
      return Rejected(UnsupportedVersion);
    }
    var table, byName, error := LoadNodes(doc.nodes);
    if error.Some? {
      return Rejected(error.value);
    }
    if doc.root != [] && doc.root !in table {
      return Rejected(UnknownRoot);
    }
    var out;
    out, error := LoadEdges(doc.nodes, table, doc.edges);
    if error.Some? {
      return Rejected(error.value);
    }
    var g := Loaded(table, byName, out);
    var cycle := CheckRelation(doc, g, IsA);
    if cycle.Some? {
      return Rejected(Cyclic(IsA, cycle.value));
    }
    cycle := CheckRelation(doc, g, DecomposesTo);
    if cycle.Some? {
      return Rejected(Cyclic(DecomposesTo, cycle.value));
    }
    return Ready(g);
  }
}
