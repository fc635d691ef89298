/** When taxonomy paths and expansions succeed, and what an expansion is. */
module ExpansionLaws {
  import opened Options
  import opened Digraph
  import opened SkillGraph
  import opened Expansion
  import Sorting

  // ------------------------------------------------------ taxonomy paths end

  /** On a loaded graph (closed and acyclic IS_A) the cycle error of
      `taxonomy_path` is unreachable. */
  lemma {:induction false} TaxonomyTotal(g: Loaded, id: string, seen: set<string>)
    requires Closed(RelationGraph(g, IsA)) && Acyclic(RelationGraph(g, IsA)) && id in g.nodes
    requires forall s :: s in seen ==> s == id || Reaches(RelationGraph(g, IsA), s, id)
    ensures TaxonomyUp(g, id, seen).Some?
    decreases g.nodes.Keys - seen
  {
    var r := RelationGraph(g, IsA);
    var parents := Out(g, id, IsA);
    if parents != [] {
      var p := parents[0].target;
      assert Targets(parents)[0] == p;
      assert Edge(r, id, p);
      EdgeReaches(r, id, p);
      forall s | s in seen
        ensures Reaches(r, s, p)
      {
        if s != id {
          ReachesTransitive(r, s, id, p);
        }
      }
      assert p !in seen;
      assert p in g.nodes.Keys - seen;
      TaxonomyTotal(g, p, seen + {p});
    }
  }

  /** Each id is the first IS_A parent of the one before it, and the last has none. */
  predicate ParentChain(g: Loaded, ids: seq<string>) {
    && ids != [] && Out(g, ids[|ids| - 1], IsA) == []
    && forall i :: 0 <= i < |ids| - 1 ==> FirstParent(g, ids[i], ids[i + 1])
  }

  predicate FirstParent(g: Loaded, id: string, parent: string) {
    Out(g, id, IsA) != [] && parent == Out(g, id, IsA)[0].target
  }

  lemma {:induction false} UpIsChain(g: Loaded, id: string, seen: set<string>) returns (ids: seq<string>)
    requires TaxonomyUp(g, id, seen).Some?
    ensures ParentChain(g, ids) && ids[0] == id && NamesAt(g, ids) == TaxonomyUp(g, id, seen).value
    decreases g.nodes.Keys - seen
  {
    if Out(g, id, IsA) == [] {
      ids := [id];
    } else {
      var p := Out(g, id, IsA)[0].target;
      assert p in g.nodes.Keys - seen;
      var up := UpIsChain(g, p, seen + {p});
      ids := [id] + up;
      forall i | 0 <= i < |ids| - 1
        ensures FirstParent(g, ids[i], ids[i + 1])
      {
        assert i > 0 ==> ids[i] == up[i - 1] && ids[i + 1] == up[i];
      }
      assert ids[1..] == up;
    }
  }

  lemma {:induction false} ReverseAt(s: seq<string>, k: nat)
    requires k < |s|
    ensures |Reverse(s)| == |s| && Reverse(s)[k] == s[|s| - 1 - k]
  {
    if |s| > 1 {
      ReverseAt(s[1..], if k < |s| - 1 then k else 0);
    }
  }

  lemma {:induction false} ReverseAll(s: seq<string>)
    ensures |Reverse(s)| == |s| && forall k :: 0 <= k < |s| ==> Reverse(s)[k] == s[|s| - 1 - k]
  {
    if s != [] {
      ReverseAt(s, 0);
    }
    forall k | 0 <= k < |s|
      ensures Reverse(s)[k] == s[|s| - 1 - k]
    {
      ReverseAt(s, k);
    }
  }

  /** A taxonomy path names the chain of first IS_A parents, root first, the skill last. */
  lemma {:induction false} TaxonomyPathIsChain(g: Loaded, id: string) returns (ids: seq<string>)
    requires TaxonomyPath(g, id).Some?
    ensures ParentChain(g, ids) && ids[0] == id && |TaxonomyPath(g, id).value| == |ids|
    ensures forall k :: 0 <= k < |ids| ==> TaxonomyPath(g, id).value[k] == NameAt(g, ids[|ids| - 1 - k])
  {
    assert TaxonomyUp(g, id, {id}).Some?;
    ids := UpIsChain(g, id, {id});
    var up := NamesAt(g, ids);
    assert TaxonomyPath(g, id) == Some(Reverse(up));
    ReverseAll(up);
  }

  // ------------------------------------- the relation that expansion follows

  /** The ids that the part names of a skill without stages resolve to. */
  function Resolved(g: Loaded, parts: seq<string>): (r: seq<string>) {
    if parts == [] then []
    else (if FindId(g, parts[0]).Some? then [FindId(g, parts[0]).value] else []) + Resolved(g, parts[1..])
  }

  function Components(g: Loaded, id: string): (r: seq<string>) {
    if id !in g.nodes || !IsSkill(g.nodes[id].kind) then []
    else
      match FindId(g, NameAt(g, id))
      case None => []
      case Some(m) => if Stages(g, m) != [] then [] else Resolved(g, Parts(g, m))
  }

  function ComponentGraph(g: Loaded): (r: Graph) {
    map id | id in g.nodes :: Components(g, id)
  }

  predicate AllFound(g: Loaded, parts: seq<string>) {
    forall i :: 0 <= i < |parts| ==> FindId(g, parts[i]).Some?
  }

  /** Nothing about this node alone makes its expansion fail. */
  predicate Local(g: Loaded, id: string) {
    && id in g.nodes && IsSkill(g.nodes[id].kind) && FindId(g, NameAt(g, id)).Some?
    && var m := FindId(g, NameAt(g, id)).value;
       TaxonomyPath(g, m).Some? && (Stages(g, m) == [] ==> AllFound(g, Parts(g, m)))
  }

  /** The node and everything its expansion visits is fine, and none of it lies on a cycle. */
  ghost predicate Clean(g: Loaded, id: string) {
    && Local(g, id) && !Reaches(ComponentGraph(g), id, id)
    && forall m :: Reaches(ComponentGraph(g), id, m) ==> Local(g, m) && !Reaches(ComponentGraph(g), m, m)
  }

  lemma {:induction false} ResolvedHas(g: Loaded, parts: seq<string>, i: nat)
    requires i < |parts| && FindId(g, parts[i]).Some?
    ensures FindId(g, parts[i]).value in Resolved(g, parts)
  {
    if i > 0 {
      ResolvedHas(g, parts[1..], i - 1);
    }
  }

  lemma {:induction false} ResolvedFrom(g: Loaded, parts: seq<string>, c: string) returns (i: nat)
    requires c in Resolved(g, parts)
    ensures i < |parts| && FindId(g, parts[i]) == Some(c)
  {
    if FindId(g, parts[0]) == Some(c) {
      i := 0;
    } else {
      i := ResolvedFrom(g, parts[1..], c);
      i := i + 1;
    }
  }

  // ---------------------------------------------------- clean skills expand

  lemma {:induction false} CleanChild(g: Loaded, id: string, c: string)
    requires Clean(g, id) && Edge(ComponentGraph(g), id, c)
    ensures Clean(g, c)
  {
    var r := ComponentGraph(g);
    EdgeReaches(r, id, c);
    forall m | Reaches(r, c, m)
      ensures Local(g, m) && !Reaches(r, m, m)
    {
      ReachesTransitive(r, id, c, m);
    }
  }

  ghost predicate Above(g: Loaded, stack: seq<string>, id: string) {
    forall i :: 0 <= i < |stack| ==> Reaches(ComponentGraph(g), stack[i], id)
  }

  lemma {:induction false} AboveChild(g: Loaded, stack: seq<string>, id: string, c: string)
    requires Above(g, stack, id) && Edge(ComponentGraph(g), id, c)
    ensures Above(g, stack + [id], c)
  {
    EdgeReaches(ComponentGraph(g), id, c);
    forall i | 0 <= i < |stack|
      ensures Reaches(ComponentGraph(g), stack[i], c)
    {
      ReachesTransitive(ComponentGraph(g), stack[i], id, c);
    }
  }

  lemma {:induction false} CleanExpands(g: Loaded, key: string, stack: seq<string>)
    requires StackOk(g, stack) && FindId(g, key).Some? && Clean(g, FindId(g, key).value)
    requires Above(g, stack, FindId(g, key).value)
    ensures Expand(g, key, stack).Leaves?
    decreases |g.nodes.Keys| - |stack|, 0, 0
  {
    var id := FindId(g, key).value;
    assert id !in stack;
    var m := FindId(g, NameAt(g, id)).value;
    var parts := Parts(g, m);
    if Stages(g, m) == [] && parts != [] {
      StackGrows(g, stack, id);
      forall i | 0 <= i < |parts|
        ensures Clean(g, FindId(g, parts[i]).value) && Above(g, stack + [id], FindId(g, parts[i]).value)
      {
        ResolvedHas(g, parts, i);
        assert Edge(ComponentGraph(g), id, FindId(g, parts[i]).value);
        CleanChild(g, id, FindId(g, parts[i]).value);
        AboveChild(g, stack, id, FindId(g, parts[i]).value);
      }
      CleanExpandsAll(g, parts, stack + [id]);
    }
  }

  lemma {:induction false} CleanExpandsAll(g: Loaded, parts: seq<string>, stack: seq<string>)
    requires StackOk(g, stack) && AllFound(g, parts)
    requires forall i :: 0 <= i < |parts| ==>
      Clean(g, FindId(g, parts[i]).value) && Above(g, stack, FindId(g, parts[i]).value)
    ensures ExpandAll(g, parts, stack).Leaves?
    decreases |g.nodes.Keys| - |stack|, 1, |parts|
  {
    if parts != [] {
      CleanExpands(g, parts[0], stack);
      CleanExpandsAll(g, parts[1..], stack);
    }
  }

  // ------------------------------------------------ expanded skills are clean

  lemma {:induction false} ExpandedParts(g: Loaded, parts: seq<string>, stack: seq<string>, i: nat)
    requires StackOk(g, stack) && ExpandAll(g, parts, stack).Leaves? && i < |parts|
    ensures Expand(g, parts[i], stack).Leaves?
  {
    if i > 0 {
      ExpandedParts(g, parts[1..], stack, i - 1);
    }
  }

  lemma {:induction false} ExpandedLocal(g: Loaded, key: string, stack: seq<string>)
    requires StackOk(g, stack) && Expand(g, key, stack).Leaves?
    ensures FindId(g, key).Some? && Local(g, FindId(g, key).value) && FindId(g, key).value !in stack
    ensures forall c :: Edge(ComponentGraph(g), FindId(g, key).value, c) ==>
      exists part :: FindId(g, part) == Some(c) && StackOk(g, stack + [FindId(g, key).value])
                     && Expand(g, part, stack + [FindId(g, key).value]).Leaves?
  {
    var id := FindId(g, key).value;
    var m := FindId(g, NameAt(g, id)).value;
    var parts := Parts(g, m);
    StackGrows(g, stack, id);
    if Stages(g, m) == [] {
      forall i | 0 <= i < |parts|
        ensures FindId(g, parts[i]).Some? && Expand(g, parts[i], stack + [id]).Leaves?
      {
        ExpandedParts(g, parts, stack + [id], i);
      }
      forall c | Edge(ComponentGraph(g), id, c)
        ensures exists part :: FindId(g, part) == Some(c) && Expand(g, part, stack + [id]).Leaves?
      {
        var i := ResolvedFrom(g, parts, c);
      }
    }
  }

  lemma {:induction false} WalkTail(r: Graph, p: seq<string>)
    requires Walk(r, p) && |p| >= 2
    ensures Edge(r, p[0], p[1]) && Walk(r, p[1..]) && p[1..][0] == p[1]
  {
    var q := p[1..];
    forall i | 0 <= i < |q| - 1
      ensures Edge(r, q[i], q[i + 1])
    {
      assert q[i] == p[i + 1] && q[i + 1] == p[i + 2];
    }
  }

  lemma {:induction false} ExpandedComponent(g: Loaded, key: string, stack: seq<string>, c: string)
    returns (part: string)
    requires StackOk(g, stack) && Expand(g, key, stack).Leaves? && FindId(g, key).Some?
    requires Edge(ComponentGraph(g), FindId(g, key).value, c)
    ensures FindId(g, part) == Some(c) && StackOk(g, stack + [FindId(g, key).value])
    ensures Expand(g, part, stack + [FindId(g, key).value]).Leaves?
  {
    ExpandedLocal(g, key, stack);
    var id := FindId(g, key).value;
    part :| FindId(g, part) == Some(c) && StackOk(g, stack + [id]) && Expand(g, part, stack + [id]).Leaves?;
  }

  lemma {:induction false} SplitAt(p: seq<string>, k: nat)
    requires 0 < k < |p|
    ensures p[1..][k - 1] == p[k] && p[..k] == [p[0]] + p[1..][..k - 1]
  {
  }

  /** Along any walk of components from an expanded skill every node is fine and new. */
  lemma {:induction false} ExpandedWalk(g: Loaded, key: string, stack: seq<string>, p: seq<string>, k: nat)
    requires StackOk(g, stack) && Expand(g, key, stack).Leaves?
    requires Walk(ComponentGraph(g), p) && FindId(g, key) == Some(p[0]) && k < |p|
    ensures Local(g, p[k]) && p[k] !in stack && p[k] !in p[..k]
    decreases |p|
  {
    if k == 0 {
      ExpandedLocal(g, key, stack);
    } else {
      var q := p[1..];
      WalkTail(ComponentGraph(g), p);
      var part := ExpandedComponent(g, key, stack, p[1]);
      ExpandedWalk(g, part, stack + [p[0]], q, k - 1);
      SplitAt(p, k);
    }
  }

  /** The exact success condition: an expansion succeeds if and only if the name
      is known and everything it visits is fine and off every cycle. */
  lemma {:induction false} ExpandSucceedsExactly(g: Loaded, key: string)
    ensures Expand(g, key, []).Leaves? <==> FindId(g, key).Some? && Clean(g, FindId(g, key).value)
  {
    if FindId(g, key).Some? && Clean(g, FindId(g, key).value) {
      CleanExpands(g, key, []);
    }
    if Expand(g, key, []).Leaves? {
      var r, id := ComponentGraph(g), FindId(g, key).value;
      ExpandedLocal(g, key, []);
      forall m | Reaches(r, id, m)
        ensures Local(g, m)
      {
        var p :| WalkFromTo(r, p, id, m);
        ExpandedWalk(g, key, [], p, |p| - 1);
      }
      NotOnCycle(g, key, id);
      forall m | Reaches(r, id, m)
        ensures !Reaches(r, m, m)
      {
        NotOnCycle(g, key, m);
      }
    }
  }

  lemma {:induction false} JoinWalks(r: Graph, p: seq<string>, q: seq<string>)
    requires Walk(r, p) && Walk(r, q) && p[|p| - 1] == q[0]
    ensures Walk(r, p + q[1..])
  {
    var w := p + q[1..];
    forall i | 0 <= i < |w| - 1
      ensures Edge(r, w[i], w[i + 1])
    {
      if i >= |p| - 1 {
        assert w[i] == q[i - |p| + 1] && w[i + 1] == q[i - |p| + 2];
      }
    }
  }

  lemma {:induction false} NotOnCycle(g: Loaded, key: string, m: string)
    requires Expand(g, key, []).Leaves? && FindId(g, key).Some?
    requires m == FindId(g, key).value || Reaches(ComponentGraph(g), FindId(g, key).value, m)
    ensures !Reaches(ComponentGraph(g), m, m)
  {
    var r, id := ComponentGraph(g), FindId(g, key).value;
    if Reaches(r, m, m) {
      var q :| WalkFromTo(r, q, m, m);
      var p := [m];
      if m != id {
        p :| WalkFromTo(r, p, id, m);
      }
      JoinWalks(r, p, q);
      var w := p + q[1..];
      assert w[|w| - 1] == m && w[..|w| - 1][|p| - 1] == m;
      ExpandedWalk(g, key, [], w, |w| - 1);
    }
  }

  // --------------------------------------------------- the cycle error itself

  /** If the component relation is acyclic, no expansion raises the cycle error. */
  lemma {:induction false} NoCycleError(g: Loaded, key: string, stack: seq<string>)
    requires StackOk(g, stack) && Acyclic(ComponentGraph(g))
    requires FindId(g, key).Some? ==> Above(g, stack, FindId(g, key).value)
    ensures !Expand(g, key, stack).CycleError?
    decreases |g.nodes.Keys| - |stack|, 0, 0
  {
    if FindId(g, key).Some? && FindId(g, key).value !in stack {
      var id := FindId(g, key).value;
      if IsSkill(g.nodes[id].kind) && FindId(g, NameAt(g, id)).Some? {
        var m := FindId(g, NameAt(g, id)).value;
        var parts := Parts(g, m);
        if Stages(g, m) == [] {
          StackGrows(g, stack, id);
          forall i | 0 <= i < |parts| && FindId(g, parts[i]).Some?
            ensures Above(g, stack + [id], FindId(g, parts[i]).value)
          {
            ResolvedHas(g, parts, i);
            AboveChild(g, stack, id, FindId(g, parts[i]).value);
          }
          NoCycleErrorAll(g, parts, stack + [id]);
        }
      }
    }
  }

  lemma {:induction false} NoCycleErrorAll(g: Loaded, parts: seq<string>, stack: seq<string>)
    requires StackOk(g, stack) && Acyclic(ComponentGraph(g))
    requires forall i :: 0 <= i < |parts| && FindId(g, parts[i]).Some? ==> Above(g, stack, FindId(g, parts[i]).value)
    ensures !ExpandAll(g, parts, stack).CycleError?
    decreases |g.nodes.Keys| - |stack|, 1, |parts|
  {
    if parts != [] {
      NoCycleError(g, parts[0], stack);
      NoCycleErrorAll(g, parts[1..], stack);
    }
  }

  /** Every skill's name, and every component's name, leads back to its node. */
  ghost predicate NamesResolve(g: Loaded) {
    && (forall id :: id in g.nodes && IsSkill(g.nodes[id].kind) ==> FindId(g, NameAt(g, id)) == Some(id))
    && (forall id, t :: Edge(RelationGraph(g, DecomposesTo), id, t) ==> FindId(g, NameAt(g, t)) == Some(t))
  }

  lemma {:induction false} TargetOf(es: seq<GraphEdge>, t: string) returns (e: GraphEdge)
    requires t in Targets(es)
    ensures e in es && e.target == t
  {
    var i :| 0 <= i < |es| && Targets(es)[i] == t;
    e := es[i];
  }

  lemma {:induction false} TargetIn(es: seq<GraphEdge>, e: GraphEdge)
    requires e in es
    ensures e.target in Targets(es)
  {
    var i :| 0 <= i < |es| && es[i] == e;
    assert Targets(es)[i] == e.target;
  }

  lemma {:induction false} OrderedIsOut(g: Loaded, id: string, relation: Relation, t: string)
    requires t in Ordered(g, id, relation)
    ensures t in Targets(Out(g, id, relation))
  {
    var es := Out(g, id, relation);
    var e := TargetOf(Sorting.Sort(es, OrderLe), t);
    Sorting.SortMembers(es, OrderLe, e);
    TargetIn(es, e);
  }

  lemma {:induction false} ComponentIsTarget(g: Loaded, id: string, c: string)
    requires NamesResolve(g) && Edge(ComponentGraph(g), id, c)
    ensures Edge(RelationGraph(g, DecomposesTo), id, c)
  {
    var ids := Ordered(g, id, DecomposesTo);
    var i := ResolvedFrom(g, Parts(g, id), c);
    OrderedIsOut(g, id, DecomposesTo, ids[i]);
    assert Edge(RelationGraph(g, DecomposesTo), id, ids[i]);
  }

  lemma {:induction false} SubgraphReaches(a: Graph, b: Graph, x: string, y: string)
    requires Reaches(a, x, y) && forall u, v :: Edge(a, u, v) ==> Edge(b, u, v)
    ensures Reaches(b, x, y)
  {
    var p :| WalkFromTo(a, p, x, y);
    assert WalkFromTo(b, p, x, y);
  }

  /** When names lead back to their nodes, an acyclic DECOMPOSES_TO relation makes
      the cycle error of `expand` unreachable. */
  lemma {:induction false} CycleErrorUnreachable(g: Loaded, key: string)
    requires Acyclic(RelationGraph(g, DecomposesTo)) && NamesResolve(g)
    ensures !Expand(g, key, []).CycleError?
  {
    forall u, v | Edge(ComponentGraph(g), u, v)
      ensures Edge(RelationGraph(g, DecomposesTo), u, v)
    {
      ComponentIsTarget(g, u, v);
    }
    forall x
      ensures !Reaches(ComponentGraph(g), x, x)
    {
      if Reaches(ComponentGraph(g), x, x) {
        SubgraphReaches(ComponentGraph(g), RelationGraph(g, DecomposesTo), x, x);
      }
    }
    NoCycleError(g, key, []);
  }

  lemma {:induction false} LoadedRelation(doc: Document, g: Loaded, relation: Relation)
    requires Acceptable(doc) && TablesOf(doc, g) && (relation == IsA || relation == DecomposesTo)
    ensures Closed(RelationGraph(g, relation)) && Acyclic(RelationGraph(g, relation))
  {
    RelationIsDocs(doc, g, relation);
    RelationClosed(doc, g, relation);
  }

  /** No taxonomy path over an accepted document meets the cycle error. */
  lemma {:induction false} LoadedTaxonomyTotal(doc: Document, g: Loaded, id: string)
    requires Acceptable(doc) && TablesOf(doc, g) && id in g.nodes
    ensures TaxonomyPath(g, id).Some?
  {
    LoadedRelation(doc, g, IsA);
    TaxonomyTotal(g, id, {id});
  }

  /** Nor does any expansion, when names resolve. */
  lemma {:induction false} LoadedExpansionSafe(doc: Document, g: Loaded, key: string)
    requires Acceptable(doc) && TablesOf(doc, g) && NamesResolve(g)
    ensures !Expand(g, key, []).CycleError?
  {
    LoadedRelation(doc, g, DecomposesTo);
    CycleErrorUnreachable(g, key);
  }

  // The same, read off the document.

  /** No node's name is another node's id. */
  predicate NamesAreNotIds(nodes: seq<GraphNode>) {
    forall i, j :: 0 <= i < |nodes| && 0 <= j < |nodes| && i != j ==> NameOf(nodes[i]) != nodes[j].id
  }

  predicate IsComponent(e: GraphEdge, n: GraphNode) {
    e.relation.DecomposesTo? && e.target == n.id
  }

  /** Every component is a skill, a category or a root, whose names are claimed. */
  predicate ComponentsNamed(doc: Document) {
    forall e, i :: 0 <= e < |doc.edges| && 0 <= i < |doc.nodes| && IsComponent(doc.edges[e], doc.nodes[i]) ==>
      IsNamed(doc.nodes[i].kind)
  }

  lemma {:induction false} NamedResolves(doc: Document, g: Loaded, i: nat)
    requires NodesOk(doc.nodes) && NodeTableOf(doc.nodes, g.nodes) && NameTableOf(doc.nodes, g.byName)
    requires NamesAreNotIds(doc.nodes) && i < |doc.nodes| && IsNamed(doc.nodes[i].kind)
    ensures FindId(g, NameAt(g, doc.nodes[i].id)) == Some(doc.nodes[i].id)
  {
    var n := doc.nodes[i];
    assert NameAt(g, n.id) == NameOf(n);
    if NameOf(n) in g.nodes {
      var j :| 0 <= j < |doc.nodes| && doc.nodes[j].id == NameOf(n);
      assert j == i;
    }
  }

  lemma {:induction false} ComponentEdge(doc: Document, g: Loaded, id: string, t: string) returns (e: nat)
    requires EdgeTableOf(doc.edges, g.edges) && Edge(RelationGraph(g, DecomposesTo), id, t)
    ensures e < |doc.edges| && doc.edges[e].relation == DecomposesTo && doc.edges[e].target == t
  {
    var es := Out(g, id, DecomposesTo);
    var i :| 0 <= i < |es| && Targets(es)[i] == t;
    OutEdgeIsEdge(doc.edges, id, DecomposesTo, es[i]);
    e :| 0 <= e < |doc.edges| && doc.edges[e] == es[i];
  }

  lemma {:induction false} DocumentNamesResolve(doc: Document, g: Loaded)
    requires Acceptable(doc) && TablesOf(doc, g) && NamesAreNotIds(doc.nodes) && ComponentsNamed(doc)
    ensures NamesResolve(g)
  {
    forall id | id in g.nodes && IsSkill(g.nodes[id].kind)
      ensures FindId(g, NameAt(g, id)) == Some(id)
    {
      var i :| 0 <= i < |doc.nodes| && doc.nodes[i].id == id;
      NamedResolves(doc, g, i);
    }
    forall id, t | Edge(RelationGraph(g, DecomposesTo), id, t)
      ensures FindId(g, NameAt(g, t)) == Some(t)
    {
      var e := ComponentEdge(doc, g, id, t);
      assert EdgeOk(doc.nodes, doc.edges[e]);
      var i :| 0 <= i < |doc.nodes| && doc.nodes[i].id == t;
      NamedResolves(doc, g, i);
    }
  }

  /** No expansion over an accepted document meets the cycle error when no name is
      another node's id and every component is a skill, a category or a root. */
  lemma {:induction false} DocumentExpansionSafe(doc: Document, g: Loaded, key: string)
    requires Acceptable(doc) && TablesOf(doc, g) && NamesAreNotIds(doc.nodes) && ComponentsNamed(doc)
    ensures !Expand(g, key, []).CycleError?
  {
    DocumentNamesResolve(doc, g);
    LoadedExpansionSafe(doc, g, key);
  }

  // ------------------------------------------- the cycle error, exactly

  /** The node and everything its expansion can visit is fine by itself. */
  ghost predicate Sound(g: Loaded, id: string) {
    Local(g, id) && forall m :: Reaches(ComponentGraph(g), id, m) ==> Local(g, m)
  }

  lemma {:induction false} SoundChild(g: Loaded, id: string, c: string)
    requires Sound(g, id) && Edge(ComponentGraph(g), id, c)
    ensures Sound(g, c)
  {
    var r := ComponentGraph(g);
    EdgeReaches(r, id, c);
    forall m | Reaches(r, c, m)
      ensures Local(g, m)
    {
      ReachesTransitive(r, id, c, m);
    }
  }

  lemma {:induction false} OnlyCycles(g: Loaded, key: string, stack: seq<string>)
    requires StackOk(g, stack) && FindId(g, key).Some? && Sound(g, FindId(g, key).value)
    ensures Expand(g, key, stack).Leaves? || Expand(g, key, stack).CycleError?
    decreases |g.nodes.Keys| - |stack|, 0, 0
  {
    var id := FindId(g, key).value;
    var m := FindId(g, NameAt(g, id)).value;
    var parts := Parts(g, m);
    if id !in stack && Stages(g, m) == [] && parts != [] {
      StackGrows(g, stack, id);
      forall i | 0 <= i < |parts|
        ensures Sound(g, FindId(g, parts[i]).value)
      {
        ResolvedHas(g, parts, i);
        assert Edge(ComponentGraph(g), id, FindId(g, parts[i]).value);
        SoundChild(g, id, FindId(g, parts[i]).value);
      }
      OnlyCyclesAll(g, parts, stack + [id]);
    }
  }

  lemma {:induction false} OnlyCyclesAll(g: Loaded, parts: seq<string>, stack: seq<string>)
    requires StackOk(g, stack) && AllFound(g, parts)
    requires forall i :: 0 <= i < |parts| ==> Sound(g, FindId(g, parts[i]).value)
    ensures ExpandAll(g, parts, stack).Leaves? || ExpandAll(g, parts, stack).CycleError?
    decreases |g.nodes.Keys| - |stack|, 1, |parts|
  {
    if parts != [] {
      OnlyCycles(g, parts[0], stack);
      OnlyCyclesAll(g, parts[1..], stack);
    }
  }

  /** `id` lies on a cycle of components, or reaches a node that does. */
  ghost predicate MeetsCycle(r: Graph, id: string) {
    Reaches(r, id, id) || exists m :: Reaches(r, id, m) && Reaches(r, m, m)
  }

  /** When nothing else can fail, the cycle error comes exactly from a cycle of
      the resolved names. */
  lemma {:induction false} CycleErrorExactly(g: Loaded, key: string)
    requires FindId(g, key).Some? && Sound(g, FindId(g, key).value)
    ensures Expand(g, key, []).CycleError? <==> MeetsCycle(ComponentGraph(g), FindId(g, key).value)
  {
    ExpandSucceedsExactly(g, key);
    OnlyCycles(g, key, []);
  }

  // ------------------------- distinct names and ids alone are not enough

  /** A skill and the stage of another vocabulary it decomposes to share a name. */
  function SharedName(): (r: Document) {
    Document(true, "",
      [GraphNode("s", "A", CanonicalSkill, ""), GraphNode("t", "A", Other("stage"), "")],
      [GraphEdge(DecomposesTo, "s", "t", Some(0))])
  }

  lemma {:induction false} SharedNameAccepted()
    ensures Acceptable(SharedName()) && NamesAreNotIds(SharedName().nodes)
  {
    var doc := SharedName();
    assert doc.nodes[0].id == "s" && doc.nodes[1].id == "t";
    assert NodesOk(doc.nodes);
    assert EdgeOk(doc.nodes, doc.edges[0]);
    assert doc.nodes[0].name == "A" && doc.nodes[1].name == "A";
    SharedNameEdges(doc, "s");
    forall x, relation | relation == IsA || relation == DecomposesTo
      ensures !Reaches(DocRelation(doc, relation), x, x)
    {
      NoSharedCycle(doc, relation, x);
    }
  }

  lemma {:induction false} SharedNameEdges(doc: Document, x: string)
    requires doc == SharedName()
    ensures OutEdges(doc.edges, x, DecomposesTo) == if x == "s" then doc.edges else []
    ensures OutEdges(doc.edges, x, IsA) == [] && OutEdges(doc.edges, x, HasStage) == []
  {
    assert doc.edges == [GraphEdge(DecomposesTo, "s", "t", Some(0))] && doc.edges[..0] == [];
  }

  lemma {:induction false} NoSharedCycle(doc: Document, relation: Relation, x: string)
    requires doc == SharedName() && (relation == IsA || relation == DecomposesTo)
    ensures !Reaches(DocRelation(doc, relation), x, x)
  {
    var r := DocRelation(doc, relation);
    if Reaches(r, x, x) {
      var y := FirstStep(r, x, x);
      SharedNameEdges(doc, x);
      SharedNameEdges(doc, y);
      assert "s"[0] != "t"[0];
      assert y == "t" && x == "s";
      var z := FirstStep(r, y, x);
    }
  }

  lemma {:induction false} SharedNameLookups(g: Loaded)
    requires TablesOf(SharedName(), g)
    ensures FindId(g, "A") == Some("s") && NameAt(g, "s") == "A" && NameAt(g, "t") == "A"
    ensures "s" in g.nodes && g.nodes["s"].kind == CanonicalSkill
  {
    var nodes := SharedName().nodes;
    assert nodes[0] == GraphNode("s", "A", CanonicalSkill, "");
    assert nodes[1] == GraphNode("t", "A", Other("stage"), "");
    assert "A"[0] != "s"[0] && "A"[0] != "t"[0];
    assert !HasId(nodes, "A");
  }

  lemma {:induction false} SharedNameParts(g: Loaded)
    requires TablesOf(SharedName(), g)
    ensures Stages(g, "s") == [] && Parts(g, "s") == ["A"] && TaxonomyPath(g, "s").Some?
  {
    var doc := SharedName();
    SharedNameLookups(g);
    SharedNameEdges(doc, "s");
    assert Out(g, "s", DecomposesTo) == [doc.edges[0]];
    assert doc.edges[0].target == "t";
    assert Sorting.Sort([doc.edges[0]], OrderLe) == [doc.edges[0]] by {
      assert [doc.edges[0]][1..] == [];
    }
    assert Ordered(g, "s", DecomposesTo) == ["t"];
    assert Out(g, "s", HasStage) == [];
    assert Ordered(g, "s", HasStage) == [];
    assert Out(g, "s", IsA) == [];
  }

  /** A skill without stages whose only component name leads back to it. */
  lemma {:induction false} SelfComponent(g: Loaded, key: string, id: string)
    requires FindId(g, key) == Some(id) && IsSkill(g.nodes[id].kind) && NameAt(g, id) == key
    requires Stages(g, id) == [] && Parts(g, id) == [key] && TaxonomyPath(g, id).Some?
    ensures Expand(g, key, []) == CycleError([id, id])
  {
    StackGrows(g, [], id);
    assert [] + [id] == [id] && [id] + [id] == [id, id];
    assert Expand(g, key, [id]) == CycleError([id, id]);
    assert ExpandAll(g, [key], [id]) == CycleError([id, id]);
  }

  /** Accepted, no name is an id, and still the cycle error is raised: the stage
      node is outside the name table, so its name leads back to the skill. */
  lemma {:induction false} DistinctNamesDoNotSuffice(g: Loaded)
    requires TablesOf(SharedName(), g)
    ensures Acceptable(SharedName()) && NamesAreNotIds(SharedName().nodes)
    ensures Expand(g, "A", []) == CycleError(["s", "s"])
  {
    SharedNameAccepted();
    SharedNameLookups(g);
    SharedNameParts(g);
    SelfComponent(g, "A", "s");
  }

  // ------------------------------------------------------ what an expansion is

  lemma {:induction false} SmallerStack(g: Loaded, key: string, s: seq<string>, t: seq<string>)
    requires StackOk(g, s) && StackOk(g, t) && (forall x :: x in t ==> x in s) && Expand(g, key, s).Leaves?
    ensures Expand(g, key, t) == Expand(g, key, s)
    decreases |g.nodes.Keys| - |s|, 0, 0
  {
    ExpandedLocal(g, key, s);
    var id := FindId(g, key).value;
    var m := FindId(g, NameAt(g, id)).value;
    if Stages(g, m) == [] && Parts(g, m) != [] {
      StackGrows(g, s, id);
      StackGrows(g, t, id);
      SmallerStackAll(g, Parts(g, m), s + [id], t + [id]);
    }
  }

  lemma {:induction false} SmallerStackAll(g: Loaded, parts: seq<string>, s: seq<string>, t: seq<string>)
    requires StackOk(g, s) && StackOk(g, t) && (forall x :: x in t ==> x in s) && ExpandAll(g, parts, s).Leaves?
    ensures ExpandAll(g, parts, t) == ExpandAll(g, parts, s)
    decreases |g.nodes.Keys| - |s|, 1, |parts|
  {
    if parts != [] {
      SmallerStack(g, parts[0], s, t);
      SmallerStackAll(g, parts[1..], s, t);
    }
  }

  /** A composite expands to the in-order concatenation of its components' own
      expansions: the stack only guards, it does not shape the result. */
  lemma {:induction false} ExpansionIsConcatenation(g: Loaded, key: string)
    requires Expand(g, key, []).Leaves?
    ensures var id := FindId(g, key).value;
            var m := FindId(g, NameAt(g, id)).value;
            Stages(g, m) == [] && Parts(g, m) != [] ==> Expand(g, key, []) == ExpandAll(g, Parts(g, m), [])
  {
    ExpandedLocal(g, key, []);
    var id := FindId(g, key).value;
    var m := FindId(g, NameAt(g, id)).value;
    if Stages(g, m) == [] && Parts(g, m) != [] {
      StackGrows(g, [], id);
      SmallerStackAll(g, Parts(g, m), [] + [id], []);
    }
  }

  lemma {:induction false} StageLeavesAt(name: string, stages: seq<Stage>, parts: seq<string>, path: seq<string>,
                                         i: nat)
    requires i < |stages|
    ensures StageLeaves(name, stages, parts, path)[i] ==
            StageLeaf(name, stages[i], if i < |parts| then Some(parts[i]) else None, path)
  {
    if i > 0 {
      StageLeavesAt(name, stages[1..], if parts == [] then [] else parts[1..], path, i - 1);
    }
  }

  /** A skill with stages expands to one leaf per stage, in order; a stage without
      a REALIZES edge takes the component at its position exactly when there are as
      many components as stages. */
  lemma {:induction false} StagedExpansion(g: Loaded, key: string, i: nat)
    requires Expand(g, key, []).Leaves?
    requires Stages(g, FindId(g, NameAt(g, FindId(g, key).value)).value) != []
    requires i < |Stages(g, FindId(g, NameAt(g, FindId(g, key).value)).value)|
    ensures var m := FindId(g, NameAt(g, FindId(g, key).value)).value;
            var leaves, stages, parts := Expand(g, key, []).leaves, Stages(g, m), Parts(g, m);
            && |leaves| == |stages| && leaves[i].stage == Some(stages[i].word)
            && leaves[i].canonical == if stages[i].realizes.Some? then stages[i].realizes
                                      else if |parts| == |stages| then Some(parts[i]) else None
  {
    ExpandedLocal(g, key, []);
    var id := FindId(g, key).value;
    var m := FindId(g, NameAt(g, id)).value;
    var stages, parts := Stages(g, m), Parts(g, m);
    StageLeavesAt(NameAt(g, id), stages, if |parts| == |stages| then parts else [], TaxonomyPath(g, m).value, i);
  }
}
