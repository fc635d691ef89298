/** `_assert_acyclic` of harness/unified_skill_graph.py: the three-colour
    depth-first search that refuses a cyclic relation and names a cycle. */
module DepthFirst {
  import opened Options
  import opened Digraph

  datatype Colour = OnStack | Done

  type Colours = map<string, Colour>

  predicate Cycle(g: Graph, c: seq<string>) {
    c != [] && WalkFromTo(g, c, c[0], c[0])
  }

  /** The stack is the path and the finished nodes are topologically ordered. */
  ghost predicate Consistent(g: Graph, path: seq<string>, state: Colours, finished: seq<string>) {
    && Topological(g, finished)
    && (forall x :: x in state ==> x in g)
    && (forall x :: x in state && state[x] == OnStack <==> x in path)
    && (forall x :: x in state && state[x] == Done <==> x in finished)
  }

  function IndexOf(s: seq<string>, x: string): (i: nat)
    requires x in s
    ensures i < |s| && s[i] == x
  {
    if s[0] == x then 0 else 1 + IndexOf(s[1..], x)
  }

  lemma {:induction false} ClosedPath(g: Graph, path: seq<string>, nid: string)
    requires OnPath(g, path, nid) && nid in path
    ensures Cycle(g, path[IndexOf(path, nid)..] + [nid])
  {
    var i := IndexOf(path, nid);
    var c := path[i..] + [nid];
    forall j | 0 <= j < |c| - 1
      ensures Edge(g, c[j], c[j + 1])
    {
      assert c[j] == (path + [nid])[i + j] && c[j + 1] == (path + [nid])[i + j + 1];
    }
  }

  method Visit(g: Graph, nid: string, path: seq<string>, state0: Colours, ghost finished0: seq<string>)
    returns (state: Colours, cycle: Option<seq<string>>, ghost finished: seq<string>)
    requires Closed(g) && nid in g && OnPath(g, path, nid) && Consistent(g, path, state0, finished0)
    ensures cycle.Some? ==> Cycle(g, cycle.value)
    ensures cycle.None? ==> Consistent(g, path, state, finished) && finished0 <= finished && nid in finished
    decreases |g.Keys| - |path|
  {
    state, cycle, finished := state0, None, finished0;
    if nid in state && state[nid] == Done {
      return;
    }
    if nid in state && state[nid] == OnStack {
      ClosedPath(g, path, nid);
      cycle := Some(path[IndexOf(path, nid)..] + [nid]);
      return;
    }
    Push(g, nid, path, state, finished);
    state := state[nid := OnStack];
    var targets := g[nid];
    for i := 0 to |targets|
      invariant Consistent(g, path + [nid], state, finished) && finished0 <= finished && cycle.None?
      invariant forall j :: 0 <= j < i ==> targets[j] in finished
    {
      assert Edge(g, nid, targets[i]);
      ExtendPath(g, path, nid, targets[i]);
      state, cycle, finished := Visit(g, targets[i], path + [nid], state, finished);
      if cycle.Some? {
        return;
      }
    }
    Finish(g, nid, path, state, finished);
    state := state[nid := Done];
    finished := finished + [nid];
  }

  lemma {:induction false} Push(g: Graph, nid: string, path: seq<string>, state: Colours, finished: seq<string>)
    requires Consistent(g, path, state, finished) && nid in g && nid !in state
    ensures Consistent(g, path + [nid], state[nid := OnStack], finished)
  {
  }

  lemma {:induction false} Finish(g: Graph, nid: string, path: seq<string>, state: Colours, finished: seq<string>)
    requires Consistent(g, path + [nid], state, finished) && nid in g && nid !in path
    requires forall y :: y in g[nid] ==> y in finished
    ensures Consistent(g, path, state[nid := Done], finished + [nid])
  {
    assert nid in path + [nid];
    assert nid !in finished;
    ExtendOrder(g, finished, nid);
  }

  /** Refuses exactly the cyclic relations, and the cycle it names is real. */
  method AssertAcyclic(g: Graph, ids: seq<string>) returns (cycle: Option<seq<string>>)
    requires Closed(g) && Elements(ids) == g.Keys
    ensures cycle.None? <==> Acyclic(g)
    ensures cycle.Some? ==> Cycle(g, cycle.value)
  {
    var state: Colours := map[];
    ghost var finished := [];
    for i := 0 to |ids|
      invariant Consistent(g, [], state, finished)
      invariant forall j :: 0 <= j < i ==> ids[j] in finished
    {
      assert ids[i] in Elements(ids);
      state, cycle, finished := Visit(g, ids[i], [], state, finished);
      if cycle.Some? {
        assert Reaches(g, cycle.value[0], cycle.value[0]);
        return;
      }
    }
    forall x | x in g
      ensures x in Elements(finished)
    {
      assert x in Elements(ids);
    }
    assert Elements(finished) == g.Keys;
    TopologicalIsAcyclic(g, finished);
    cycle := None;
  }
}
