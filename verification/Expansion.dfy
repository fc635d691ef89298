/** Queries of harness/unified_skill_graph.py: taxonomy paths, ordered stages and
    components, and the recursive expansion of a skill into leaves. */
module Expansion {
  import opened Options
  import opened Digraph
  import opened SkillGraph
  import Sorting

  // ---------------------------------------------------------------- lookups

  /** `node(id_or_name)`, as the id found; None stands for the unknown-node error. */
  function FindId(g: Loaded, key: string): (r: Option<string>)
    ensures r.Some? ==> r.value in g.nodes
  {
    if key in g.nodes then Some(key)
    else if key in g.byName && g.byName[key] in g.nodes then Some(g.byName[key])
    else None
  }

  function NameAt(g: Loaded, id: string): (r: string) {
    if id in g.nodes then NameOf(g.nodes[id]) else []
  }

  function OrderKey(e: GraphEdge): (r: int) {
    if e.order.Some? then e.order.value else 0
  }

  predicate OrderLe(a: GraphEdge, b: GraphEdge) {
    OrderKey(a) <= OrderKey(b)
  }

  /** `_ordered`: the targets of a relation by ascending `order`, ties in document order. */
  function Ordered(g: Loaded, id: string, relation: Relation): (r: seq<string>) {
    Targets(Sorting.Sort(Out(g, id, relation), OrderLe))
  }

  function NamesAt(g: Loaded, ids: seq<string>): (r: seq<string>)
    ensures |r| == |ids| && forall i :: 0 <= i < |ids| ==> r[i] == NameAt(g, ids[i])
  {
    if ids == [] then [] else [NameAt(g, ids[0])] + NamesAt(g, ids[1..])
  }

  function Reverse(s: seq<string>): (r: seq<string>) {
    if s == [] then [] else Reverse(s[1..]) + [s[0]]
  }

  /** Names from `id` up to its root, by the first IS_A edge; None stands for the
      cycle error (or a dangling edge). */
  function TaxonomyUp(g: Loaded, id: string, seen: set<string>): (r: Option<seq<string>>)
    decreases g.nodes.Keys - seen
  {
    var parents := Out(g, id, IsA);
    if parents == [] then Some([NameAt(g, id)])
    else
      var p := parents[0].target;
      if p in seen || p !in g.nodes then None
      else
        assert p in g.nodes.Keys - seen;
        match TaxonomyUp(g, p, seen + {p})
        case None => None
        case Some(up) => Some([NameAt(g, id)] + up)
  }

  /** `taxonomy_path` of the node with this id: root first. */
  function TaxonomyPath(g: Loaded, id: string): (r: Option<seq<string>>) {
    match TaxonomyUp(g, id, {id})
    case None => None
    case Some(up) => Some(Reverse(up))
  }

  function Prepend(prefix: seq<string>, rest: Option<seq<string>>): (r: Option<seq<string>>) {
    if rest.None? then None else Some(prefix + rest.value)
  }

  lemma {:induction false} PrependOne(prefix: seq<string>, name: string, rest: Option<seq<string>>)
    ensures Prepend(prefix, Prepend([name], rest)) == Prepend(prefix + [name], rest)
    ensures Prepend([], rest) == rest
  {
    if rest.Some? {
      assert prefix + ([name] + rest.value) == prefix + [name] + rest.value;
      assert [] + rest.value == rest.value;
    }
  }

  /** The loop of `taxonomy_path`. */
  method WalkTaxonomy(g: Loaded, id: string) returns (r: Option<seq<string>>)
    ensures r == TaxonomyPath(g, id)
  {
    var path, seen, cur := [], {id}, id;
    PrependOne([], [], TaxonomyUp(g, id, {id}));
    while Out(g, cur, IsA) != []
      invariant TaxonomyUp(g, id, {id}) == Prepend(path, TaxonomyUp(g, cur, seen))
      decreases g.nodes.Keys - seen
    {
      var p := Out(g, cur, IsA)[0].target;
      if p in seen || p !in g.nodes {
        return None;
      }
      assert p in g.nodes.Keys - seen;
      PrependOne(path, NameAt(g, cur), TaxonomyUp(g, p, seen + {p}));
      path, seen, cur := path + [NameAt(g, cur)], seen + {p}, p;
    }
    r := Some(Reverse(path + [NameAt(g, cur)]));
  }

  // ---------------------------------------------------------------- expansion

  datatype Stage = Stage(word: string, realizes: Option<string>)

  datatype Via = RealizesEdge | ByPosition | StageOnly | Whole

  datatype Leaf = Leaf(skill: string, stage: Option<string>, canonical: Option<string>, via: Via, path: seq<string>)

  datatype Expanded = Leaves(leaves: seq<Leaf>) | UnknownNode(key: string) | NotASkill(name: string)
                    | CycleError(ids: seq<string>) | BrokenTaxonomy

  /** `rsplit(".", 1)[-1]`. */
  function LastSegment(s: string): (r: string) {
    if s == [] || s[|s| - 1] == '.' then [] else LastSegment(s[..|s| - 1]) + [s[|s| - 1]]
  }

  function FirstName(g: Loaded, edges: seq<GraphEdge>): (r: Option<string>) {
    if edges == [] then None else Some(NameAt(g, edges[0].target))
  }

  function StageAt(g: Loaded, id: string): (r: Stage) {
    var word := if id in g.nodes && g.nodes[id].stage != [] then g.nodes[id].stage else LastSegment(NameAt(g, id));
    Stage(word, FirstName(g, Out(g, id, Realizes)))
  }

  function StagesAt(g: Loaded, ids: seq<string>): (r: seq<Stage>)
    ensures |r| == |ids|
  {
    if ids == [] then [] else [StageAt(g, ids[0])] + StagesAt(g, ids[1..])
  }

  /** `stages(...)`, as seen from the node with this id. */
  function Stages(g: Loaded, id: string): (r: seq<Stage>) {
    StagesAt(g, Ordered(g, id, HasStage))
  }

  /** `decomposition(...)`: the component names in order. */
  function Parts(g: Loaded, id: string): (r: seq<string>) {
    NamesAt(g, Ordered(g, id, DecomposesTo))
  }

  function StageLeaf(name: string, s: Stage, positional: Option<string>, path: seq<string>): (r: Leaf) {
    if s.realizes.Some? then Leaf(name, Some(s.word), s.realizes, RealizesEdge, path)
    else if positional.Some? then Leaf(name, Some(s.word), positional, ByPosition, path)
    else Leaf(name, Some(s.word), None, StageOnly, path)
  }

  function StageLeaves(name: string, stages: seq<Stage>, parts: seq<string>, path: seq<string>): (r: seq<Leaf>)
    ensures |r| == |stages|
  {
    if stages == [] then []
    else
      var rest := if parts == [] then [] else parts[1..];
      [StageLeaf(name, stages[0], if parts == [] then None else Some(parts[0]), path)]
      + StageLeaves(name, stages[1..], rest, path)
  }

  predicate StackOk(g: Loaded, stack: seq<string>) {
    Distinct(stack) && forall i :: 0 <= i < |stack| ==> stack[i] in g.nodes
  }

  /** The skill without stages and components is its own leaf. */
  function WholeLeaf(g: Loaded, id: string, m: string, path: seq<string>): (r: Leaf) {
    var canonical := if id in g.nodes && g.nodes[id].kind.CanonicalSkill? then Some(NameAt(g, id))
                     else FirstName(g, Out(g, m, IsA));
    Leaf(NameAt(g, id), None, canonical, Whole, path)
  }

  lemma {:induction false} StackGrows(g: Loaded, stack: seq<string>, id: string)
    requires StackOk(g, stack) && id in g.nodes && id !in stack
    ensures StackOk(g, stack + [id]) && |stack| < |g.nodes.Keys|
  {
    DistinctSize(stack + [id], g.nodes.Keys);
  }

  /** `expand(skill, _stack)`; `m` is what the node's own name resolves to. */
  function Expand(g: Loaded, key: string, stack: seq<string>): (r: Expanded)
    requires StackOk(g, stack)
    decreases |g.nodes.Keys| - |stack|, 0, 0
  {
    match FindId(g, key)
    case None => UnknownNode(key)
    case Some(id) =>
      if !IsSkill(g.nodes[id].kind) then NotASkill(NameAt(g, id))
      else if id in stack then CycleError(stack + [id])
      else
        match FindId(g, NameAt(g, id))
        case None => UnknownNode(NameAt(g, id))
        case Some(m) =>
          match TaxonomyPath(g, m)
          case None => BrokenTaxonomy
          case Some(path) =>
            var stages, parts := Stages(g, m), Parts(g, m);
            if stages != [] then
              Leaves(StageLeaves(NameAt(g, id), stages, if |parts| == |stages| then parts else [], path))
            else if parts != [] then
              StackGrows(g, stack, id);
              ExpandAll(g, parts, stack + [id])
            else Leaves([WholeLeaf(g, id, m, path)])
  }

  /** The loop over the components: leaves are appended in order, the first error ends it. */
  function ExpandAll(g: Loaded, parts: seq<string>, stack: seq<string>): (r: Expanded)
    requires StackOk(g, stack)
    decreases |g.nodes.Keys| - |stack|, 1, |parts|
  {
    if parts == [] then Leaves([])
    else
      match Expand(g, parts[0], stack)
      case Leaves(first) =>
        (match ExpandAll(g, parts[1..], stack)
         case Leaves(rest) => Leaves(first + rest)
         case error => error)
      case error => error
  }

  method LeafChain(g: Loaded, skills: seq<string>) returns (r: Expanded)
    ensures r == ExpandAll(g, skills, [])
  {
    var out := [];
    for i := 0 to |skills|
      invariant ExpandAll(g, skills, []) ==
        (match ExpandAll(g, skills[i..], []) case Leaves(rest) => Leaves(out + rest) case error => error)
    {
      assert skills[i..][1..] == skills[i + 1..];
      match Expand(g, skills[i], []) {
        case Leaves(first) =>
          assert forall rest :: out + (first + rest) == (out + first) + rest;
          out := out + first;
        case error => return error;
      }
    }
    return Leaves(out);
  }
}
