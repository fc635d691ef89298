/** Finite directed graphs given by adjacency lists: walks, reachability,
    cycles and topological orders. Both the `after` relation of an execution
    graph and the typed relations of the skill graph are read as such graphs. */
module Digraph {

  type Graph = map<string, seq<string>>

  predicate Edge(g: Graph, x: string, y: string) {
    x in g && y in g[x]
  }

  /** Every listed neighbour is itself a node. */
  ghost predicate Closed(g: Graph) {
    forall x, y :: Edge(g, x, y) ==> y in g
  }

  predicate Walk(g: Graph, p: seq<string>) {
    && |p| >= 1
    && forall i :: 0 <= i < |p| - 1 ==> Edge(g, p[i], p[i + 1])
  }

  predicate WalkFromTo(g: Graph, p: seq<string>, x: string, y: string) {
    |p| >= 2 && Walk(g, p) && p[0] == x && p[|p| - 1] == y
  }

  /** `y` is reached from `x` by one edge or more. */
  ghost predicate Reaches(g: Graph, x: string, y: string) {
    exists p :: WalkFromTo(g, p, x, y)
  }

  ghost predicate Acyclic(g: Graph) {
    forall x :: !Reaches(g, x, x)
  }

  predicate Distinct(s: seq<string>) {
    forall i, j :: 0 <= i < j < |s| ==> s[i] != s[j]
  }

  function Elements(s: seq<string>): (r: set<string>)
  {
    set x | x in s
  }

  /** A repetition-free list of nodes in which every neighbour of an entry stands earlier. */
  predicate Topological(g: Graph, order: seq<string>) {
    && Distinct(order)
    && forall i :: 0 <= i < |order| ==> order[i] in g && forall y :: y in g[order[i]] ==> y in order[..i]
  }

  predicate LinearExtension(g: Graph, order: seq<string>) {
    Topological(g, order) && Elements(order) == g.Keys
  }

  /** The strict transitive closure, as a map from a node to what it reaches. */
  ghost function Closure(g: Graph): map<string, set<string>> {
    map x | x in g :: set y | y in g && Reaches(g, x, y)
  }

  // ------------------------------------------------------------ reachability

  lemma {:induction false} EdgeReaches(g: Graph, x: string, y: string)
    requires Edge(g, x, y)
    ensures Reaches(g, x, y)
  {
    assert WalkFromTo(g, [x, y], x, y);
  }

  lemma {:induction false} WalkReaches(g: Graph, p: seq<string>, i: int, j: int)
    requires Walk(g, p) && 0 <= i < j < |p|
    ensures Reaches(g, p[i], p[j])
  {
    assert WalkFromTo(g, p[i..j + 1], p[i], p[j]);
  }

  lemma {:induction false} ReachesTransitive(g: Graph, x: string, y: string, z: string)
    requires Reaches(g, x, y) && Reaches(g, y, z)
    ensures Reaches(g, x, z)
  {
    var p :| WalkFromTo(g, p, x, y);
    var q :| WalkFromTo(g, q, y, z);
    var r := p + q[1..];
    forall i | 0 <= i < |r| - 1
      ensures Edge(g, r[i], r[i + 1])
    {
      if i >= |p| - 1 {
        assert r[i] == q[i - |p| + 1] && r[i + 1] == q[i - |p| + 2];
      }
    }
    assert WalkFromTo(g, r, x, z);
  }

  /** Reachability starts with an edge. */
  lemma {:induction false} FirstStep(g: Graph, x: string, z: string) returns (y: string)
    requires Reaches(g, x, z)
    ensures Edge(g, x, y) && (y == z || Reaches(g, y, z))
  {
    var p :| WalkFromTo(g, p, x, z);
    assert Edge(g, p[0], p[1]);
    y := p[1];
    if |p| > 2 {
      WalkReaches(g, p, 1, |p| - 1);
    }
  }

  // ------------------------------------------------------ topological orders

  /** Everything a listed node reaches stands before it. */
  lemma {:induction false} ReachedStandsEarlier(g: Graph, order: seq<string>, i: nat, y: string)
    requires Topological(g, order) && i < |order| && Reaches(g, order[i], y)
    ensures y in order[..i]
    decreases i
  {
    var z := FirstStep(g, order[i], y);
    assert z in order[..i];
    var j :| 0 <= j < i && order[j] == z;
    if z != y {
      ReachedStandsEarlier(g, order, j, y);
    }
  }

  lemma {:induction false} TopologicalIsAcyclic(g: Graph, order: seq<string>)
    requires LinearExtension(g, order)
    ensures Acyclic(g) && Closed(g)
  {
    forall x
      ensures !Reaches(g, x, x)
    {
      if Reaches(g, x, x) {
        var z := FirstStep(g, x, x);
        assert x in Elements(order);
        var i :| 0 <= i < |order| && order[i] == x;
        ReachedStandsEarlier(g, order, i, x);
      }
    }
    forall x, y | Edge(g, x, y)
      ensures y in g
    {
      assert x in Elements(order);
      var i :| 0 <= i < |order| && order[i] == x;
      assert y in order[..i];
      assert y in Elements(order);
    }
  }

  lemma {:induction false} DistinctSize(s: seq<string>, bound: set<string>)
    requires Distinct(s) && forall x :: x in s ==> x in bound
    ensures |s| <= |bound| && |Elements(s)| == |s|
  {
    if s == [] {
      assert Elements(s) == {};
    } else {
      var last := s[|s| - 1];
      var init := s[..|s| - 1];
      assert s == init + [last];
      assert last !in init;
      DistinctSize(init, bound - {last});
      assert Elements(s) == Elements(init) + {last};
    }
  }

  /** A nonempty set of nodes of an acyclic graph has a member with no neighbour in the set. */
  lemma {:induction false} SinkOf(g: Graph, s: set<string>, p: seq<string>) returns (x: string)
    requires Acyclic(g) && s <= g.Keys
    requires Walk(g, p) && Distinct(p) && forall y :: y in p ==> y in s
    ensures x in s && forall y :: y in g[x] ==> y !in s
    decreases |s| - |p|
  {
    DistinctSize(p, s);
    x := p[|p| - 1];
    if y :| y in g[x] && y in s {
      if y in p {
        var i :| 0 <= i < |p| && p[i] == y;
        EdgeReaches(g, x, y);
        if i < |p| - 1 {
          WalkReaches(g, p, i, |p| - 1);
          ReachesTransitive(g, y, x, y);
        }
        assert false;
      } else {
        var q := p + [y];
        assert Walk(g, q) by {
          forall i | 0 <= i < |q| - 1
            ensures Edge(g, q[i], q[i + 1])
          {
          }
        }
        DistinctSize(q, s);
        x := SinkOf(g, s, q);
      }
    }
  }

  /** A node whose neighbours are all listed may be listed next. */
  lemma {:induction false} ExtendOrder(g: Graph, order: seq<string>, x: string)
    requires Topological(g, order) && x in g && x !in order
    requires forall y :: y in g[x] ==> y in order
    ensures Topological(g, order + [x])
    ensures Elements(order + [x]) == Elements(order) + {x}
  {
    var next := order + [x];
    forall i | 0 <= i < |next|
      ensures next[i] in g && forall y :: y in g[next[i]] ==> y in next[..i]
    {
      if i < |order| {
        assert next[i] == order[i] && next[..i] == order[..i];
      } else {
        assert next[..i] == order;
      }
    }
  }

  /** Every acyclic graph with no dangling edge has a linear extension. */
  lemma {:induction false} LinearExtensionExists(g: Graph) returns (order: seq<string>)
    requires Acyclic(g) && Closed(g)
    ensures LinearExtension(g, order)
  {
    order := [];
    while Elements(order) != g.Keys
      invariant Topological(g, order) && Elements(order) <= g.Keys
      decreases |g.Keys - Elements(order)|
    {
      var left := g.Keys - Elements(order);
      var start :| start in left;
      var x := SinkOf(g, left, [start]);
      assert forall y :: y in g[x] ==> Edge(g, x, y);
      ExtendOrder(g, order, x);
      assert g.Keys - Elements(order + [x]) == left - {x};
      order := order + [x];
    }
  }

  // ----------------------------------------------------- depth-first search

  /** A depth-first path: repetition-free, and an edge leads from its end to `nid`. */
  predicate OnPath(g: Graph, path: seq<string>, nid: string) {
    && Distinct(path)
    && (forall i :: 0 <= i < |path| ==> path[i] in g)
    && Walk(g, path + [nid])
  }

  lemma {:induction false} ExtendPath(g: Graph, path: seq<string>, nid: string, a: string)
    requires OnPath(g, path, nid) && nid in g && nid !in path && Edge(g, nid, a)
    ensures OnPath(g, path + [nid], a)
    ensures |path| < |g.Keys|
  {
    var p := path + [nid] + [a];
    forall i | 0 <= i < |p| - 1
      ensures Edge(g, p[i], p[i + 1])
    {
      if i < |path| {
        assert p[i] == (path + [nid])[i] && p[i + 1] == (path + [nid])[i + 1];
      }
    }
    DistinctSize(path + [nid], g.Keys);
  }

  lemma {:induction false} PathCloses(g: Graph, path: seq<string>, nid: string)
    requires OnPath(g, path, nid) && nid in path
    ensures Reaches(g, nid, nid)
  {
    var i :| 0 <= i < |path| && path[i] == nid;
    WalkReaches(g, path + [nid], i, |path|);
  }
}
