/** Expansions in terms of the edges themselves: stages and components come by the
    `order` numbers of their edges, ties in document order. */
module ExpansionOrder {
  import opened Options
  import opened SkillGraph
  import opened Expansion
  import opened ExpansionLaws

  // ---------------------------------------------------------------- lookups

  /** An id finds its own node; a name that is no id finds the skill, category or
      root that bears it; nothing else is found. */
  lemma {:induction false} LookupExactly(doc: Document, g: Loaded, key: string)
    requires NodesOk(doc.nodes) && TablesOf(doc, g)
    ensures FindId(g, key) == Some(key) <==> HasId(doc.nodes, key)
    ensures !HasId(doc.nodes, key) ==>
      forall i :: 0 <= i < |doc.nodes| && IsNamed(doc.nodes[i].kind) && NameOf(doc.nodes[i]) == key ==>
        FindId(g, key) == Some(doc.nodes[i].id)
    ensures FindId(g, key).Some? ==>
      HasId(doc.nodes, key) || exists i :: 0 <= i < |doc.nodes| && IsNamed(doc.nodes[i].kind)
                                           && NameOf(doc.nodes[i]) == key && FindId(g, key) == Some(doc.nodes[i].id)
  {
    if !HasId(doc.nodes, key) && key in g.byName {
      assert Names(doc.nodes, key, g.byName[key]);
    }
  }

  /** What follows the last point of a name; the whole name if there is none. */
  lemma {:induction false} LastSegmentIs(s: string)
    ensures var r := LastSegment(s);
            && '.' !in r && |r| <= |s| && s[|s| - |r|..] == r
            && ('.' !in s ==> r == s) && ('.' in s ==> |r| < |s| && s[|s| - |r| - 1] == '.')
  {
    if s != [] && s[|s| - 1] != '.' {
      var init := s[..|s| - 1];
      LastSegmentIs(init);
      assert s == init + [s[|s| - 1]];
    }
  }

  // ---------------------------------------------------------- edges by number

  /** `p` lists the edges by ascending `order`, edges of one order as they stand. */
  predicate ByNumber(edges: seq<GraphEdge>, p: seq<nat>) {
    && |p| == |edges| && (forall i :: 0 <= i < |p| ==> p[i] < |edges|)
    && forall i, j :: 0 <= i < j < |p| ==> p[i] != p[j] && NumberedBefore(edges, p[i], p[j])
  }

  predicate NumberedBefore(edges: seq<GraphEdge>, a: nat, b: nat)
    requires a < |edges| && b < |edges|
  {
    edges[a].order.Some? && edges[b].order.Some? ==>
      || edges[a].order.value < edges[b].order.value
      || (edges[a].order.value == edges[b].order.value && a < b)
  }

  lemma {:induction false} EveryEdgeListed(edges: seq<GraphEdge>, p: seq<nat>, k: nat) returns (i: nat)
    requires ByNumber(edges, p) && k < |edges|
    ensures i < |p| && p[i] == k
  {
    if forall i :: 0 <= i < |p| ==> p[i] != k {
      Pigeonhole(p, |edges|, k);
    }
    i :| 0 <= i < |p| && p[i] == k;
  }

  lemma {:induction false} ListedInOrder(edges: seq<GraphEdge>, p: seq<nat>, a: nat, b: nat) returns (x: nat, y: nat)
    requires ByNumber(edges, p) && a < |edges| && b < |edges| && edges[a].order.Some? && edges[b].order.Some?
    requires edges[a].order.value < edges[b].order.value
    ensures x < y < |p| && p[x] == a && p[y] == b
  {
    x := EveryEdgeListed(edges, p, a);
    y := EveryEdgeListed(edges, p, b);
  }

  lemma {:induction false} Pigeonhole(p: seq<nat>, n: nat, k: nat)
    requires k < n && (forall i :: 0 <= i < |p| ==> p[i] < n && p[i] != k)
    requires forall i, j :: 0 <= i < j < |p| ==> p[i] != p[j]
    ensures |p| < n
  {
    DistinctCount(p, Below(n) - {k});
  }

  function Below(n: nat): (r: set<int>)
    ensures |r| == n && forall m :: m in r <==> 0 <= m < n
  {
    if n == 0 then {} else Below(n - 1) + {n - 1}
  }

  lemma {:induction false} DistinctCount(p: seq<nat>, bound: set<int>)
    requires (forall i :: 0 <= i < |p| ==> p[i] in bound) && forall i, j :: 0 <= i < j < |p| ==> p[i] != p[j]
    ensures |p| <= |bound|
  {
    if p != [] {
      var k := |p| - 1;
      DistinctCount(p[..k], bound - {p[k]});
    }
  }

  lemma {:induction false} OrderTotal()
    ensures Sorting.TotalPreorder(OrderLe)
  {
  }

  /** The targets of a relation are those of its edges, by number. */
  lemma {:induction false} OrderedByNumber(g: Loaded, id: string, relation: Relation) returns (p: seq<nat>)
    ensures ByNumber(Out(g, id, relation), p) && |Ordered(g, id, relation)| == |p|
    ensures forall i :: 0 <= i < |p| ==> Ordered(g, id, relation)[i] == Out(g, id, relation)[p[i]].target
  {
    var edges := Out(g, id, relation);
    var sorted := Sorting.Sort(edges, OrderLe);
    OrderTotal();
    p := Sorting.SortPositions(edges, OrderLe);
    forall i, j | 0 <= i < j < |p|
      ensures p[i] != p[j] && NumberedBefore(edges, p[i], p[j])
    {
      assert Sorting.AscendAt(p, OrderLe, sorted, i, j);
    }
  }

  // ------------------------------------------------------------- the leaves

  /** The node that expands, and the node its own name finds. */
  function Found(g: Loaded, key: string): (r: (string, string))
    requires Expand(g, key, []).Leaves?
  {
    (FindId(g, key).value, FindId(g, NameAt(g, FindId(g, key).value)).value)
  }

  lemma {:induction false} StageCount(g: Loaded, m: string)
    ensures |Stages(g, m)| == |Out(g, m, HasStage)| && |Parts(g, m)| == |Out(g, m, DecomposesTo)|
  {
    var p := OrderedByNumber(g, m, HasStage);
    var q := OrderedByNumber(g, m, DecomposesTo);
  }

  lemma {:induction false} StagesAtIndex(g: Loaded, ids: seq<string>, i: nat)
    requires i < |ids|
    ensures StagesAt(g, ids)[i] == StageAt(g, ids[i])
  {
    if i > 0 {
      StagesAtIndex(g, ids[1..], i - 1);
    }
  }

  /** The stage word of a node: its own, or what follows the last point of its name. */
  predicate StageWord(g: Loaded, id: string, word: string) {
    if id in g.nodes && g.nodes[id].stage != [] then word == g.nodes[id].stage
    else word == LastSegment(NameAt(g, id))
  }

  /** What a stage stands for: the first REALIZES target of its node, or else the
      component at its position, or nothing. */
  predicate StandsFor(g: Loaded, stage: string, component: Option<string>, leaf: Leaf) {
    var realizes := Out(g, stage, Realizes);
    if realizes != [] then leaf.canonical == Some(NameAt(g, realizes[0].target)) && leaf.via == RealizesEdge
    else leaf.canonical == component && leaf.via == if component.Some? then ByPosition else StageOnly
  }

  /** A skill with stages has one leaf per HAS_STAGE edge, by number; the component
      at a position is that of the DECOMPOSES_TO edge there, if both are as many. */
  lemma {:induction false} StagesByNumber(g: Loaded, key: string) returns (p: seq<nat>, q: seq<nat>)
    requires Expand(g, key, []).Leaves? && Out(g, Found(g, key).1, HasStage) != []
    ensures var (id, m) := Found(g, key);
            var leaves, stages, parts := Expand(g, key, []).leaves, Out(g, m, HasStage), Out(g, m, DecomposesTo);
            && ByNumber(stages, p) && ByNumber(parts, q) && |leaves| == |stages|
            && forall i :: 0 <= i < |stages| ==>
                 && leaves[i].skill == NameAt(g, id) && Some(leaves[i].path) == TaxonomyPath(g, m)
                 && leaves[i].stage.Some? && StageWord(g, stages[p[i]].target, leaves[i].stage.value)
                 && StandsFor(g, stages[p[i]].target,
                              if |parts| == |stages| then Some(NameAt(g, parts[q[i]].target)) else None, leaves[i])
  {
    ExpandedLocal(g, key, []);
    var (id, m) := Found(g, key);
    p := OrderedByNumber(g, m, HasStage);
    q := OrderedByNumber(g, m, DecomposesTo);
    var leaves, stages, parts := Expand(g, key, []).leaves, Out(g, m, HasStage), Out(g, m, DecomposesTo);
    StageCount(g, m);
    forall i | 0 <= i < |stages|
      ensures leaves[i].skill == NameAt(g, id) && Some(leaves[i].path) == TaxonomyPath(g, m)
      ensures leaves[i].stage.Some? && StageWord(g, stages[p[i]].target, leaves[i].stage.value)
      ensures StandsFor(g, stages[p[i]].target,
                        if |parts| == |stages| then Some(NameAt(g, parts[q[i]].target)) else None, leaves[i])
    {
      StagesAtIndex(g, Ordered(g, m, HasStage), i);
      StageLeavesAt(NameAt(g, id), Stages(g, m), if |Parts(g, m)| == |Stages(g, m)| then Parts(g, m) else [],
                    TaxonomyPath(g, m).value, i);
    }
  }

  /** So the leaf of a stage stands before the leaves of the stages of greater order. */
  lemma {:induction false} StagesInOrder(g: Loaded, key: string, a: nat, b: nat) returns (i: nat, j: nat)
    requires Expand(g, key, []).Leaves?
    requires var stages := Out(g, Found(g, key).1, HasStage);
             && a < |stages| && b < |stages| && stages[a].order.Some? && stages[b].order.Some?
             && stages[a].order.value < stages[b].order.value
    ensures var stages, leaves := Out(g, Found(g, key).1, HasStage), Expand(g, key, []).leaves;
            && i < j < |leaves| && leaves[i].stage.Some? && leaves[j].stage.Some?
            && StageWord(g, stages[a].target, leaves[i].stage.value)
            && StageWord(g, stages[b].target, leaves[j].stage.value)
  {
    var stages := Out(g, Found(g, key).1, HasStage);
    var p, q := StagesByNumber(g, key);
    i, j := ListedInOrder(stages, p, a, b);
  }

  /** The leaves between two cuts are the leaves of one part. */
  predicate CutAt(g: Loaded, parts: seq<string>, leaves: seq<Leaf>, cuts: seq<nat>, i: nat)
    requires i < |parts| && |cuts| == |parts| + 1
  {
    cuts[i] <= cuts[i + 1] <= |leaves| && Expand(g, parts[i], []) == Leaves(leaves[cuts[i]..cuts[i + 1]])
  }

  predicate CutUp(g: Loaded, parts: seq<string>, leaves: seq<Leaf>, cuts: seq<nat>) {
    && |cuts| == |parts| + 1 && cuts[0] == 0 && cuts[|parts|] == |leaves|
    && forall i :: 0 <= i < |parts| ==> CutAt(g, parts, leaves, cuts, i)
  }

  function Later(cuts: seq<nat>, n: nat): (r: seq<nat>)
    ensures |r| == |cuts| + 1 && r[0] == 0 && forall k :: 0 <= k < |cuts| ==> r[k + 1] == cuts[k] + n
  {
    [0] + seq(|cuts|, k requires 0 <= k < |cuts| => cuts[k] + n)
  }

  lemma {:induction false} CutShift(g: Loaded, parts: seq<string>, first: seq<Leaf>, rest: seq<Leaf>, cuts: seq<nat>,
                                    i: nat)
    requires 0 < i < |parts| && |cuts| == |parts| && CutAt(g, parts[1..], rest, cuts, i - 1)
    ensures CutAt(g, parts, first + rest, Later(cuts, |first|), i)
  {
    var later := Later(cuts, |first|);
    assert later[i - 1 + 1] == cuts[i - 1] + |first| && later[i + 1] == cuts[i] + |first|;
    assert (first + rest)[later[i]..later[i + 1]] == rest[cuts[i - 1]..cuts[i]];
  }

  lemma {:induction false} CutLater(g: Loaded, parts: seq<string>, first: seq<Leaf>, rest: seq<Leaf>, cuts: seq<nat>)
    requires parts != [] && Expand(g, parts[0], []) == Leaves(first) && CutUp(g, parts[1..], rest, cuts)
    ensures CutUp(g, parts, first + rest, Later(cuts, |first|))
  {
    var leaves, later := first + rest, Later(cuts, |first|);
    assert later[1] == |first| && later[|parts|] == |leaves|;
    forall i | 0 <= i < |parts|
      ensures CutAt(g, parts, leaves, later, i)
    {
      if i > 0 {
        CutShift(g, parts, first, rest, cuts, i);
      } else {
        assert leaves[0..|first|] == first;
      }
    }
  }

  lemma {:induction false} PartsCutUp(g: Loaded, parts: seq<string>) returns (cuts: seq<nat>)
    requires ExpandAll(g, parts, []).Leaves?
    ensures CutUp(g, parts, ExpandAll(g, parts, []).leaves, cuts)
  {
    if parts == [] {
      cuts := [0];
    } else {
      var later := PartsCutUp(g, parts[1..]);
      var first, rest := Expand(g, parts[0], []).leaves, ExpandAll(g, parts[1..], []).leaves;
      CutLater(g, parts, first, rest, later);
      cuts := Later(later, |first|);
    }
  }

  /** A composite's leaves are those of its components, one stretch per DECOMPOSES_TO
      edge, by number. */
  lemma {:induction false} ComponentsByNumber(g: Loaded, key: string) returns (p: seq<nat>, parts: seq<string>,
                                                                              cuts: seq<nat>)
    requires Expand(g, key, []).Leaves?
    requires Out(g, Found(g, key).1, HasStage) == [] && Out(g, Found(g, key).1, DecomposesTo) != []
    ensures var edges := Out(g, Found(g, key).1, DecomposesTo);
            && ByNumber(edges, p) && |parts| == |edges| && CutUp(g, parts, Expand(g, key, []).leaves, cuts)
            && forall i :: 0 <= i < |edges| ==> parts[i] == NameAt(g, edges[p[i]].target)
  {
    var m := Found(g, key).1;
    ExpandedLocal(g, key, []);
    StageCount(g, m);
    p := OrderedByNumber(g, m, DecomposesTo);
    parts := Parts(g, m);
    ExpansionIsConcatenation(g, key);
    cuts := PartsCutUp(g, parts);
  }

  lemma {:induction false} CutsAscend(g: Loaded, parts: seq<string>, leaves: seq<Leaf>, cuts: seq<nat>, i: nat, j: nat)
    requires CutUp(g, parts, leaves, cuts) && i <= j <= |parts|
    ensures cuts[i] <= cuts[j] <= |leaves|
  {
    if i < j {
      CutsAscend(g, parts, leaves, cuts, i, j - 1);
      assert CutAt(g, parts, leaves, cuts, j - 1);
    } else if j < |parts| {
      assert CutAt(g, parts, leaves, cuts, j);
    }
  }

  lemma {:induction false} StretchesApart(g: Loaded, parts: seq<string>, leaves: seq<Leaf>, cuts: seq<nat>, x: nat,
                                          y: nat) returns (i: nat, j: nat, k: nat, l: nat)
    requires CutUp(g, parts, leaves, cuts) && x < y < |parts|
    ensures i <= j <= k <= l <= |leaves|
    ensures Expand(g, parts[x], []) == Leaves(leaves[i..j]) && Expand(g, parts[y], []) == Leaves(leaves[k..l])
  {
    CutsAscend(g, parts, leaves, cuts, x + 1, y);
    assert CutAt(g, parts, leaves, cuts, x) && CutAt(g, parts, leaves, cuts, y);
    i, j, k, l := cuts[x], cuts[x + 1], cuts[y], cuts[y + 1];
  }

  /** So the leaves of a component stand before those of the components of greater order. */
  lemma {:induction false} ComponentsInOrder(g: Loaded, key: string, a: nat, b: nat)
    returns (i: nat, j: nat, k: nat, l: nat)
    requires Expand(g, key, []).Leaves? && Out(g, Found(g, key).1, HasStage) == []
    requires var edges := Out(g, Found(g, key).1, DecomposesTo);
             && a < |edges| && b < |edges| && edges[a].order.Some? && edges[b].order.Some?
             && edges[a].order.value < edges[b].order.value
    ensures var edges, leaves := Out(g, Found(g, key).1, DecomposesTo), Expand(g, key, []).leaves;
            && i <= j <= k <= l <= |leaves|
            && Expand(g, NameAt(g, edges[a].target), []) == Leaves(leaves[i..j])
            && Expand(g, NameAt(g, edges[b].target), []) == Leaves(leaves[k..l])
  {
    var edges, leaves := Out(g, Found(g, key).1, DecomposesTo), Expand(g, key, []).leaves;
    var p, parts, cuts := ComponentsByNumber(g, key);
    var x, y := ListedInOrder(edges, p, a, b);
    i, j, k, l := StretchesApart(g, parts, leaves, cuts, x, y);
  }

  /** A skill with neither is one leaf: a canonical skill stands for itself, an
      observed one for its first IS_A parent, if it has one. */
  lemma {:induction false} WholeSkill(g: Loaded, key: string)
    requires Expand(g, key, []).Leaves?
    requires Out(g, Found(g, key).1, HasStage) == [] && Out(g, Found(g, key).1, DecomposesTo) == []
    ensures var (id, m) := Found(g, key);
            var leaves := Expand(g, key, []).leaves;
            && |leaves| == 1 && leaves[0].skill == NameAt(g, id) && leaves[0].stage == None && leaves[0].via == Whole
            && Some(leaves[0].path) == TaxonomyPath(g, m)
            && leaves[0].canonical == if g.nodes[id].kind == CanonicalSkill then Some(NameAt(g, id))
                                      else if Out(g, m, IsA) == [] then None
                                      else Some(NameAt(g, Out(g, m, IsA)[0].target))
  {
    ExpandedLocal(g, key, []);
    StageCount(g, Found(g, key).1);
  }
}
