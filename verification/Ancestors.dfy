/** `_ancestors` of harness/protocol.py: the memoised recursive walk that
    collects the transitive predecessors of every node of an execution graph. */
module Ancestors {
  import opened Digraph

  type Memo = map<string, set<string>>

  datatype OrderProblem = CycleThrough(id: string) | UnknownAfter(node: string, id: string)

  ghost predicate Genuine(g: Graph, q: OrderProblem) {
    match q
    case CycleThrough(x) => x in g && Reaches(g, x, x)
    case UnknownAfter(n, a) => Edge(g, n, a) && a !in g
  }

  /** What holds of the memo table and the problem list whether or not the
      relation has a cycle: entries are sound, problems are real, and no dangling
      edge out of a finished node is missed. */
  ghost predicate Sound(g: Graph, anc: Memo, problems: seq<OrderProblem>) {
    && anc.Keys <= g.Keys
    && (forall n, a :: n in anc && a in anc[n] ==> a in g && Reaches(g, n, a))
    && (forall q :: q in problems ==> Genuine(g, q))
    && (forall n, a :: n in anc && Edge(g, n, a) && a !in g ==> UnknownAfter(n, a) in problems)
  }

  /** What holds as long as nothing has been reported: the finished nodes, in
      order of completion, are topologically ordered and their entries are closed
      under taking predecessors. */
  ghost predicate Complete(g: Graph, anc: Memo, finished: seq<string>) {
    && Topological(g, finished)
    && Elements(finished) == anc.Keys
    && forall n, a :: n in anc && Edge(g, n, a) ==> a in anc && a in anc[n] && anc[a] <= anc[n]
  }

  ghost predicate Extends(anc0: Memo, anc: Memo) {
    forall n :: n in anc0 ==> n in anc && anc[n] == anc0[n]
  }

  lemma {:induction false} ThroughNeighbour(g: Graph, n: string, a: string, s: set<string>)
    requires Edge(g, n, a) && forall x :: x in s ==> Reaches(g, a, x)
    ensures Reaches(g, n, a) && forall x :: x in s ==> Reaches(g, n, x)
  {
    EdgeReaches(g, n, a);
    forall x | x in s
      ensures Reaches(g, n, x)
    {
      ReachesTransitive(g, n, a, x);
    }
  }

  /** The inner closure `walk(nid, path)`; the memo table and the problem list
      it mutates are threaded through. */
  method WalkNode(g: Graph, nid: string, path: seq<string>, anc0: Memo, problems0: seq<OrderProblem>,
                  ghost finished0: seq<string>)
    returns (out: set<string>, anc: Memo, problems: seq<OrderProblem>, ghost finished: seq<string>)
    requires nid in g && OnPath(g, path, nid)
    requires Sound(g, anc0, problems0)
    requires problems0 == [] ==> Complete(g, anc0, finished0)
    ensures Sound(g, anc, problems) && Extends(anc0, anc) && problems0 <= problems
    ensures forall a :: a in out ==> a in g && Reaches(g, nid, a)
    ensures problems == [] ==> Complete(g, anc, finished) && nid in anc && out == anc[nid]
    ensures nid in anc || nid in path
    ensures forall x :: x in path && x in anc ==> x in anc0
    decreases |g.Keys| - |path|
  {
    anc, problems, finished := anc0, problems0, finished0;
    if nid in anc {
      out := anc[nid];
      return;
    }
    if nid in path {
      PathCloses(g, path, nid);
      SoundReport(g, anc, problems, CycleThrough(nid));
      problems := problems + [CycleThrough(nid)];
      out := {};
      return;
    }
    out := {};
    var after := g[nid];
    for i := 0 to |after|
      invariant Sound(g, anc, problems) && Extends(anc0, anc) && problems0 <= problems
      invariant problems == [] ==> Complete(g, anc, finished)
      invariant forall x :: (x in path || x == nid) && x in anc ==> x in anc0
      invariant forall a :: a in out ==> a in g && Reaches(g, nid, a)
      invariant forall j :: 0 <= j < i && after[j] !in g ==> UnknownAfter(nid, after[j]) in problems
      invariant problems == [] ==> forall j :: 0 <= j < i ==>
        after[j] in anc && after[j] in out && anc[after[j]] <= out
    {
      var a := after[i];
      assert Edge(g, nid, a);
      if a !in g {
        SoundReport(g, anc, problems, UnknownAfter(nid, a));
        problems := problems + [UnknownAfter(nid, a)];
      } else {
        ExtendPath(g, path, nid, a);
        var more;
        more, anc, problems, finished := WalkNode(g, a, path + [nid], anc, problems, finished);
        ThroughNeighbour(g, nid, a, more);
        out := out + {a} + more;
      }
    }
    if problems == [] {
      Memoise(g, nid, out, anc, finished);
    }
    SoundMemo(g, nid, out, anc, problems);
    anc := anc[nid := out];
    finished := finished + [nid];
  }

  lemma {:induction false} SoundMemo(g: Graph, nid: string, out: set<string>, anc: Memo, problems: seq<OrderProblem>)
    requires Sound(g, anc, problems) && nid in g && nid !in anc
    requires forall a :: a in out ==> a in g && Reaches(g, nid, a)
    requires forall a :: a in g[nid] && a !in g ==> UnknownAfter(nid, a) in problems
    ensures Sound(g, anc[nid := out], problems)
  {
  }

  lemma {:induction false} SoundReport(g: Graph, anc: Memo, problems: seq<OrderProblem>, q: OrderProblem)
    requires Sound(g, anc, problems) && Genuine(g, q)
    ensures Sound(g, anc, problems + [q])
  {
  }

  lemma {:induction false} Memoise(g: Graph, nid: string, out: set<string>, anc: Memo, finished: seq<string>)
    requires Complete(g, anc, finished) && nid in g && nid !in anc
    requires forall a :: a in g[nid] ==> a in anc && a in out && anc[a] <= out
    ensures Complete(g, anc[nid := out], finished + [nid])
  {
    assert nid !in Elements(finished);
    assert forall y :: y in g[nid] ==> y in Elements(finished);
    ExtendOrder(g, finished, nid);
    var next := anc[nid := out];
    forall n, a | n in next && Edge(g, n, a)
      ensures a in next && a in next[n] && next[a] <= next[n]
    {
      if n == nid {
        assert a in g[nid] && a != nid;
      } else {
        assert n in anc && a in anc && a != nid;
      }
    }
    assert Elements(finished + [nid]) == next.Keys;
  }

  /** A complete table holds everything its nodes reach. */
  lemma {:induction false} CompleteReaches(g: Graph, anc: Memo, finished: seq<string>, p: seq<string>)
    requires Complete(g, anc, finished)
    requires |p| >= 2 && Walk(g, p) && p[0] in anc
    ensures p[|p| - 1] in anc[p[0]]
  {
    assert Edge(g, p[0], p[1]);
    if |p| > 2 {
      var q := p[1..];
      forall i | 0 <= i < |q| - 1
        ensures Edge(g, q[i], q[i + 1])
      {
        assert q[i] == p[i + 1] && q[i + 1] == p[i + 2];
      }
      CompleteReaches(g, anc, finished, q);
      assert anc[p[1]] <= anc[p[0]];
    }
  }

  /** `_ancestors`: no problem is reported exactly when the relation is closed
      and acyclic, and then the table is the transitive closure. Whatever the
      relation, the table never holds a node that is not reached, every reported
      problem is real and every dangling edge is reported. */
  method AncestorsOf(g: Graph, ids: seq<string>) returns (anc: Memo, problems: seq<OrderProblem>)
    requires Elements(ids) == g.Keys
    ensures problems == [] <==> Closed(g) && Acyclic(g)
    ensures problems == [] ==> anc == Closure(g)
    ensures anc.Keys == g.Keys && forall n, a :: n in anc && a in anc[n] ==> Reaches(g, n, a)
    ensures forall q :: q in problems ==> Genuine(g, q)
    ensures forall n, a :: Edge(g, n, a) && a !in g ==> UnknownAfter(n, a) in problems
  {
    anc, problems := map[], [];
    ghost var finished := [];
    for i := 0 to |ids|
      invariant Sound(g, anc, problems)
      invariant problems == [] ==> Complete(g, anc, finished)
      invariant forall j :: 0 <= j < i ==> ids[j] in anc
    {
      assert ids[i] in Elements(ids);
      assert Walk(g, [] + [ids[i]]);
      ghost var before := anc;
      var out;
      out, anc, problems, finished := WalkNode(g, ids[i], [], anc, problems, finished);
      assert Extends(before, anc);
    }
    assert forall n :: n in g ==> n in Elements(ids);
    assert anc.Keys == g.Keys;
    if problems == [] {
      assert LinearExtension(g, finished);
      TopologicalIsAcyclic(g, finished);
      ClosureReached(g, anc, finished);
    } else {
      assert Genuine(g, problems[0]);
    }
  }

  lemma {:induction false} ClosureReached(g: Graph, anc: Memo, finished: seq<string>)
    requires Sound(g, anc, []) && Complete(g, anc, finished) && anc.Keys == g.Keys
    ensures anc == Closure(g)
  {
    forall n | n in g
      ensures anc[n] == Closure(g)[n]
    {
      forall a | a in g && Reaches(g, n, a)
        ensures a in anc[n]
      {
        var p :| WalkFromTo(g, p, n, a);
        CompleteReaches(g, anc, finished, p);
      }
    }
  }
}
