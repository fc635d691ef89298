/** `replan_monotone` of harness/protocol.py and the reason for it: a run that is
    resumed on a new graph, skipping the completed nodes, is a run of that graph. */
module Replan {
  import opened Digraph
  import opened Plans
  import opened PredRefs
  import opened Legality
  import LegalityCheck
  import LegalRuns

  // ---------------------------------------------------------- replan_monotone

  datatype ReplanProblem =
    | NotInOld(id: string)
    | Dropped(id: string)
    | Rewrote(id: string)
    | RewroteIdentity(id: string)
    | DependsOnUnfinished(id: string, ids: set<string>)
    | NotAPrefix(expected: seq<string>, actual: seq<string>)

  /** The ids of the completed nodes, in list order. */
  function DoneIds(nodes: seq<Node>, done: set<string>): (r: seq<string>)
    ensures |r| <= |nodes|
  {
    if nodes == [] then []
    else
      var last := nodes[|nodes| - 1];
      DoneIds(nodes[..|nodes| - 1], done) + (if last.id in done then [last.id] else [])
  }

  function Prefix(nodes: seq<Node>, k: nat): (r: seq<string>)
    ensures |r| == if k <= |nodes| then k else |nodes|
    ensures forall i :: 0 <= i < |r| ==> r[i] == nodes[i].id
  {
    Ids(if k <= |nodes| then nodes[..k] else nodes)
  }

  /** Nodes agree on what is executed and on the symbolic contract. */
  predicate SameExecution(a: Node, b: Node) {
    a.skill == b.skill && a.args == b.args && a.kind == b.kind && a.task == b.task && a.executor == b.executor
  }

  predicate NodeReplanProblem(prev: map<string, Node>, next: map<string, Node>, done: set<string>, d: string,
                              q: ReplanProblem) {
    match q
    case NotInOld(id) => id == d && d !in prev
    case Dropped(id) => id == d && d in prev && d !in next
    case Rewrote(id) =>
      id == d && d in prev && d in next && !(next[d].skill == prev[d].skill && next[d].args == prev[d].args)
    case RewroteIdentity(id) =>
      && id == d && d in prev && d in next && next[d].skill == prev[d].skill && next[d].args == prev[d].args
      && !SameExecution(next[d], prev[d])
    case DependsOnUnfinished(id, ids) => id == d && d in next && ids == Elements(next[d].after) - done && ids != {}
    case NotAPrefix(_, _) => false
  }

  predicate SomeNodeProblem(prev: map<string, Node>, next: map<string, Node>, done: set<string>, among: set<string>,
                            q: ReplanProblem) {
    exists d :: d in among && NodeReplanProblem(prev, next, done, d, q)
  }

  predicate PrefixProblem(prev: ExecutionGraph, next: ExecutionGraph, done: set<string>, q: ReplanProblem) {
    && q.NotAPrefix?
    && done <= NodeMap(prev.nodes).Keys && done <= NodeMap(next.nodes).Keys
    && q.expected == DoneIds(prev.nodes, done)
    && q.actual == Prefix(next.nodes, |q.expected|) && q.actual != q.expected
  }

  predicate IsReplanProblem(prev: ExecutionGraph, next: ExecutionGraph, done: set<string>, q: ReplanProblem) {
    || PrefixProblem(prev, next, done, q)
    || SomeNodeProblem(NodeMap(prev.nodes), NodeMap(next.nodes), done, done, q)
  }

  /** The completed ids of a list are those of its parts in order, and of one node its
      id if it is completed. */
  lemma {:induction false} DoneIdsAre(a: seq<Node>, b: seq<Node>, n: Node, done: set<string>)
    ensures DoneIds(a + b, done) == DoneIds(a, done) + DoneIds(b, done)
    ensures DoneIds([n], done) == if n.id in done then [n.id] else []
  {
    assert [n][..0] == [] && DoneIds([], done) == [];
    if b == [] {
      assert a + b == a;
    } else {
      var init, last := b[..|b| - 1], b[|b| - 1];
      DoneIdsAre(a, init, n, done);
      assert (a + b)[..|a + b| - 1] == a + init && (a + b)[|a + b| - 1] == last;
    }
  }

  /** Completed nodes keep their execution identity, depend on completed nodes
      only, and are the same ordered prefix of both lists. */
  predicate Monotone(prev: ExecutionGraph, next: ExecutionGraph, done: set<string>) {
    && (forall d :: d in done ==>
         && d in NodeMap(prev.nodes) && d in NodeMap(next.nodes)
         && SameExecution(NodeMap(next.nodes)[d], NodeMap(prev.nodes)[d])
         && Elements(NodeMap(next.nodes)[d].after) <= done)
    && DoneIds(prev.nodes, done) == Prefix(next.nodes, |DoneIds(prev.nodes, done)|)
  }

  method DoneNodeProblems(o: map<string, Node>, n: map<string, Node>, done: set<string>, d: string)
    returns (ps: seq<ReplanProblem>)
    ensures forall q :: q in ps <==> NodeReplanProblem(o, n, done, d, q)
  {
    ps := [];
    if d !in o {
      ps := ps + [NotInOld(d)];
    } else if d !in n {
      ps := ps + [Dropped(d)];
    } else if !(n[d].skill == o[d].skill && n[d].args == o[d].args) {
      ps := ps + [Rewrote(d)];
    } else if !(n[d].kind == o[d].kind && n[d].task == o[d].task && n[d].executor == o[d].executor) {
      ps := ps + [RewroteIdentity(d)];
    }
    if d in n && Elements(n[d].after) - done != {} {
      ps := ps + [DependsOnUnfinished(d, Elements(n[d].after) - done)];
    }
  }

  /** `replan_monotone`: accepts exactly the monotone replans and reports every violation. */
  method ReplanMonotone(prev: ExecutionGraph, next: ExecutionGraph, done: set<string>)
    returns (ok: bool, problems: seq<ReplanProblem>)
    ensures ok <==> problems == []
    ensures ok <==> Monotone(prev, next, done)
    ensures forall q :: q in problems <==> IsReplanProblem(prev, next, done, q)
  {
    var o, n := NodeMap(prev.nodes), NodeMap(next.nodes);
    problems := [];
    var rest := done;
    while rest != {}
      invariant rest <= done
      invariant forall q :: q in problems <==> SomeNodeProblem(o, n, done, done - rest, q)
    {
      var d :| d in rest;
      var more := DoneNodeProblems(o, n, done, d);
      assert done - (rest - {d}) == done - rest + {d};
      problems := problems + more;
      rest := rest - {d};
    }
    assert done - rest == done;
    if done <= o.Keys && done <= n.Keys {
      var expected := DoneIds(prev.nodes, done);
      var actual := Prefix(next.nodes, |expected|);
      if actual != expected {
        problems := problems + [NotAPrefix(expected, actual)];
      }
    }
    MonotoneIsProblemFree(prev, next, done);
    if problems != [] {
      assert IsReplanProblem(prev, next, done, problems[0]);
    }
    ok := problems == [];
  }

  /** Over a monotone replan every completed node keeps skill, arguments, kind, task
      and executor, and waits for completed nodes only. */
  lemma {:induction false} MonotoneKeeps(prev: ExecutionGraph, next: ExecutionGraph, done: set<string>)
    ensures Monotone(prev, next, done) <==>
      && (forall d :: d in done ==> d in NodeMap(prev.nodes) && d in NodeMap(next.nodes))
      && (forall d :: d in done ==>
           var o, n := NodeMap(prev.nodes)[d], NodeMap(next.nodes)[d];
           && n.skill == o.skill && n.args == o.args && n.kind == o.kind && n.task == o.task
           && n.executor == o.executor && forall a :: a in n.after ==> a in done)
      && DoneIds(prev.nodes, done) == Prefix(next.nodes, |DoneIds(prev.nodes, done)|)
  {
  }

  lemma {:induction false} MonotoneIsProblemFree(prev: ExecutionGraph, next: ExecutionGraph, done: set<string>)
    ensures Monotone(prev, next, done) <==> forall q :: !IsReplanProblem(prev, next, done, q)
  {
    var o, n := NodeMap(prev.nodes), NodeMap(next.nodes);
    if forall q :: !IsReplanProblem(prev, next, done, q) {
      forall d | d in done
        ensures d in o && d in n && SameExecution(n[d], o[d]) && Elements(n[d].after) <= done
      {
        assert !NodeReplanProblem(o, n, done, d, NotInOld(d)) by {
          assert !IsReplanProblem(prev, next, done, NotInOld(d));
        }
        assert !NodeReplanProblem(o, n, done, d, Dropped(d)) by {
          assert !IsReplanProblem(prev, next, done, Dropped(d));
        }
        assert !NodeReplanProblem(o, n, done, d, Rewrote(d)) by {
          assert !IsReplanProblem(prev, next, done, Rewrote(d));
        }
        assert !NodeReplanProblem(o, n, done, d, RewroteIdentity(d)) by {
          assert !IsReplanProblem(prev, next, done, RewroteIdentity(d));
        }
        var q := DependsOnUnfinished(d, Elements(n[d].after) - done);
        assert !NodeReplanProblem(o, n, done, d, q) by { assert !IsReplanProblem(prev, next, done, q); }
        assert q.ids == {};
        assert forall x :: x in Elements(n[d].after) ==> x in q.ids || x in done;
      }
      var expected := DoneIds(prev.nodes, done);
      assert !IsReplanProblem(prev, next, done, NotAPrefix(expected, Prefix(next.nodes, |expected|)));
    }
  }

  // --------------------------------------------------- runs with replanning

  /** A task run: the current graph, the completed ids and the symbolic world. */
  datatype TaskRun = TaskRun(graph: ExecutionGraph, done: set<string>, world: State)

  datatype Event =
    | Succeed                        // the next uncompleted node in list order succeeds
    | Fail                           // it fails: no symbolic effect
    | Adopt(graph: ExecutionGraph)   // a replan that passes the gate

  /** The list order is itself a linear extension of `after`. */
  predicate ListOrdered(g: ExecutionGraph) {
    LinearExtension(AfterGraph(g.nodes), Ids(g.nodes))
  }

  /** The third gate: `validate_plan` admits only fresh ids whose `after` lists
      earlier ids, which is exactly a list in a topological order. */
  method ListsEarlierIds(g: ExecutionGraph) returns (ok: bool)
    ensures ok <==> ListOrdered(g)
  {
    var nodes := g.nodes;
    var ids: seq<string> := [];
    for i := 0 to |nodes|
      invariant ids == Ids(nodes)[..i]
      invariant forall j :: 0 <= j < i ==> EarlierOnly(nodes, j)
    {
      ok := nodes[i].id !in ids && forall a :: a in nodes[i].after ==> a in ids;
      if !ok {
        assert !EarlierOnly(nodes, i);
        EarlierIsOrdered(g);
        return;
      }
      ids := ids + [nodes[i].id];
    }
    EarlierIsOrdered(g);
    ok := true;
  }

  predicate EarlierOnly(nodes: seq<Node>, i: nat)
    requires i < |nodes|
  {
    nodes[i].id !in Ids(nodes)[..i] && forall a :: a in nodes[i].after ==> a in Ids(nodes)[..i]
  }

  predicate ListedAt(g: Graph, ids: seq<string>, i: nat)
    requires i < |ids|
  {
    ids[i] in g && forall y :: y in g[ids[i]] ==> y in ids[..i]
  }

  lemma {:induction false} AfterAt(nodes: seq<Node>, i: nat)
    requires UniqueIds(nodes) && i < |nodes|
    ensures nodes[i].id in AfterGraph(nodes) && AfterGraph(nodes)[nodes[i].id] == nodes[i].after
  {
    LegalRuns.NodeMapAt(nodes, i);
  }

  lemma {:induction false} NotEarlier(ids: seq<string>, i: nat)
    requires Distinct(ids) && i < |ids|
    ensures ids[i] !in ids[..i]
  {
    assert forall j :: 0 <= j < i ==> ids[..i][j] != ids[i];
  }

  lemma {:induction false} EarlierMeans(nodes: seq<Node>, i: nat)
    requires Distinct(Ids(nodes)) && UniqueIds(nodes) && i < |nodes|
    ensures EarlierOnly(nodes, i) <==> ListedAt(AfterGraph(nodes), Ids(nodes), i)
  {
    AfterAt(nodes, i);
    NotEarlier(Ids(nodes), i);
  }

  lemma {:induction false} ListedIsTopological(g: Graph, ids: seq<string>)
    requires Elements(ids) == g.Keys
    ensures LinearExtension(g, ids) <==> Distinct(ids) && forall i :: 0 <= i < |ids| ==> ListedAt(g, ids, i)
  {
    if LinearExtension(g, ids) {
      assert forall i :: 0 <= i < |ids| ==> ListedAt(g, ids, i);
    }
    if Distinct(ids) && forall i :: 0 <= i < |ids| ==> ListedAt(g, ids, i) {
      forall i | 0 <= i < |ids|
        ensures ids[i] in g && forall y :: y in g[ids[i]] ==> y in ids[..i]
      {
        assert ListedAt(g, ids, i);
      }
    }
  }

  lemma {:induction false} EarlierIsOrdered(g: ExecutionGraph)
    ensures ListOrdered(g) <==> forall i :: 0 <= i < |g.nodes| ==> EarlierOnly(g.nodes, i)
  {
    var nodes := g.nodes;
    LegalityCheck.IdsAreKeys(nodes);
    ListedIsTopological(AfterGraph(nodes), Ids(nodes));
    if forall i :: 0 <= i < |nodes| ==> EarlierOnly(nodes, i) {
      EarlierIsDistinct(nodes);
    }
    if Distinct(Ids(nodes)) {
      DistinctIdsAreUnique(nodes);
      forall i | 0 <= i < |nodes|
        ensures EarlierOnly(nodes, i) <==> ListedAt(AfterGraph(nodes), Ids(nodes), i)
      {
        EarlierMeans(nodes, i);
      }
    }
  }

  lemma {:induction false} DistinctIdsAreUnique(nodes: seq<Node>)
    requires Distinct(Ids(nodes))
    ensures UniqueIds(nodes)
  {
    assert forall i :: 0 <= i < |nodes| ==> Ids(nodes)[i] == nodes[i].id;
  }

  lemma {:induction false} EarlierIsDistinct(nodes: seq<Node>)
    requires forall i :: 0 <= i < |nodes| ==> EarlierOnly(nodes, i)
    ensures Distinct(Ids(nodes))
  {
    var ids := Ids(nodes);
    forall i, j | 0 <= i < j < |ids|
      ensures ids[i] != ids[j]
    {
      assert EarlierOnly(nodes, j) && ids[..j][i] == ids[i];
    }
  }

  /** The position of the first id in the list that is not completed. */
  function NextAt(ids: seq<string>, done: set<string>, from: nat): (i: nat)
    requires from <= |ids|
    ensures from <= i <= |ids|
    decreases |ids| - from
  {
    if from < |ids| && ids[from] in done then NextAt(ids, done, from + 1) else from
  }

  predicate Usable(g: ExecutionGraph, records: Records) {
    UniqueIds(g.nodes) && SkillsKnown(g.nodes, records) && ContractsParse(g.nodes, records)
  }

  /** The gate of a replan: monotone, legal, and listed in a legal order. */
  ghost predicate Gate(run: TaskRun, next: ExecutionGraph, records: Records, facts: seq<Ref>, objects: set<string>) {
    Monotone(run.graph, next, run.done) && Legal(next, records, facts, objects) && ListOrdered(next)
  }

  function Succeeded(run: TaskRun, id: string, records: Records): (r: TaskRun)
    requires Usable(run.graph, records) && id in NodeMap(run.graph.nodes)
  {
    run.(done := run.done + {id}, world := Apply(run.world, StepsOf(run.graph.nodes, records)[id]))
  }

  /** One event; `gated` says whether an adopted graph passed the gate. */
  function Step(run: TaskRun, e: Event, records: Records, gated: bool): (r: TaskRun)
    requires Usable(run.graph, records)
  {
    var ids := Ids(run.graph.nodes);
    var i := NextAt(ids, run.done, 0);
    match e
    case Succeed => if i < |ids| then Succeeded(run, run.graph.nodes[i].id, records) else run
    case Fail => run
    case Adopt(next) => if gated then run.(graph := next) else run
  }

  // The invariant, first on lists of ids: the completed ids are the first k of
  // the list and the world is what executing them from the initial facts yields.

  predicate Located(ids: seq<string>, steps: Steps, done: set<string>, world: State, k: nat, facts: State) {
    && Distinct(ids) && k <= |ids| && done == Elements(ids[..k])
    && (forall x :: x in ids ==> x in steps)
    && world == Run(steps, ids[..k], facts)
  }

  lemma {:induction false} LocatedNext(ids: seq<string>, steps: Steps, done: set<string>, world: State, k: nat,
                                       facts: State, from: nat)
    requires Located(ids, steps, done, world, k, facts) && from <= k
    ensures NextAt(ids, done, from) == k
    decreases k - from
  {
    if from < k {
      assert ids[..k][from] in done;
      LocatedNext(ids, steps, done, world, k, facts, from + 1);
    } else if k < |ids| {
      assert forall j :: 0 <= j < k ==> ids[..k][j] != ids[k];
    }
  }

  lemma {:induction false} LocatedSucceeds(ids: seq<string>, steps: Steps, done: set<string>, world: State, k: nat,
                                           facts: State)
    requires Located(ids, steps, done, world, k, facts) && k < |ids|
    ensures Located(ids, steps, done + {ids[k]}, Apply(world, steps[ids[k]]), k + 1, facts)
  {
    assert ids[..k + 1] == ids[..k] + [ids[k]];
    assert ids[..k + 1][..k] == ids[..k];
  }

  lemma {:induction false} SameEffects(steps0: Steps, steps1: Steps, order: seq<string>, s: State)
    requires forall x :: x in order ==> x in steps0 && x in steps1 && steps0[x] == steps1[x]
    ensures Run(steps0, order, s) == Run(steps1, order, s)
  {
    if order != [] {
      SameEffects(steps0, steps1, order[..|order| - 1], s);
    }
  }

  lemma {:induction false} LocatedReplan(ids: seq<string>, steps: Steps, done: set<string>, world: State, k: nat,
                                         facts: State,
                      ids1: seq<string>, steps1: Steps)
    requires Located(ids, steps, done, world, k, facts)
    requires Distinct(ids1) && (forall x :: x in ids1 ==> x in steps1)
    requires k <= |ids1| && ids1[..k] == ids[..k]
    requires forall x :: x in done && x in steps && x in steps1 ==> steps1[x] == steps[x]
    ensures Located(ids1, steps1, done, world, k, facts)
  {
    forall x | x in ids[..k]
      ensures x in steps && x in steps1 && steps[x] == steps1[x]
    {
      assert x in ids1[..k] && x in done;
    }
    SameEffects(steps, steps1, ids[..k], facts);
  }

  predicate OnTrack(run: TaskRun, k: nat, records: Records, facts: State) {
    && Usable(run.graph, records)
    && Located(Ids(run.graph.nodes), StepsOf(run.graph.nodes, records), run.done, run.world, k, facts)
  }

  lemma {:induction false} StartsOnTrack(g: ExecutionGraph, records: Records, facts: State)
    requires Usable(g, records)
    ensures OnTrack(TaskRun(g, {}, facts), 0, records, facts)
  {
    var ids := Ids(g.nodes);
    assert ids[..0] == [] && Elements([]) == {};
    IdsAreSteps(g, records);
  }

  lemma {:induction false} IdsAreSteps(g: ExecutionGraph, records: Records)
    requires Usable(g, records)
    ensures Distinct(Ids(g.nodes)) && forall x :: x in Ids(g.nodes) ==> x in StepsOf(g.nodes, records)
  {
    LegalityCheck.IdsAreKeys(g.nodes);
    assert forall x :: x in Ids(g.nodes) ==> x in Elements(Ids(g.nodes));
  }

  lemma {:induction false} DoneIdsOfPrefix(nodes: seq<Node>, k: nat, done: set<string>)
    requires UniqueIds(nodes) && k <= |nodes|
    requires forall i :: 0 <= i < |nodes| ==> (nodes[i].id in done <==> i < k)
    ensures DoneIds(nodes, done) == Ids(nodes)[..k]
  {
    if nodes != [] {
      var init := nodes[..|nodes| - 1];
      DoneIdsOfPrefix(init, if k < |nodes| then k else k - 1, done);
      assert Ids(nodes) == Ids(init) + [nodes[|nodes| - 1].id];
    }
  }

  lemma {:induction false} DoneOfLocated(nodes: seq<Node>, k: nat, done: set<string>)
    requires UniqueIds(nodes) && k <= |nodes| && done == Elements(Ids(nodes)[..k])
    ensures DoneIds(nodes, done) == Ids(nodes)[..k]
  {
    forall i | 0 <= i < |nodes|
      ensures nodes[i].id in done <==> i < k
    {
      if i < k {
        assert Ids(nodes)[..k][i] == nodes[i].id;
      } else {
        assert forall j :: 0 <= j < k ==> Ids(nodes)[..k][j] != nodes[i].id;
      }
    }
    DoneIdsOfPrefix(nodes, k, done);
  }

  lemma {:induction false} SameContract(prev: ExecutionGraph, next: ExecutionGraph, records: Records, x: string)
    requires Usable(prev, records) && Usable(next, records)
    requires x in NodeMap(prev.nodes) && x in NodeMap(next.nodes)
    requires SameExecution(NodeMap(next.nodes)[x], NodeMap(prev.nodes)[x])
    ensures StepsOf(next.nodes, records)[x] == StepsOf(prev.nodes, records)[x]
  {
    assert Env(NodeMap(next.nodes)[x]) == Env(NodeMap(prev.nodes)[x]);
  }

  /** A monotone graph starts with the completed nodes, with the same effects. */
  lemma {:induction false} MonotonePrefix(prev: ExecutionGraph, next: ExecutionGraph, done: set<string>, k: nat,
                                          records: Records)
    requires Usable(prev, records) && Usable(next, records) && Monotone(prev, next, done)
    requires k <= |prev.nodes| && done == Elements(Ids(prev.nodes)[..k])
    ensures k <= |next.nodes| && Ids(next.nodes)[..k] == Ids(prev.nodes)[..k]
    ensures forall x :: x in done && x in StepsOf(prev.nodes, records) && x in StepsOf(next.nodes, records) ==>
      StepsOf(next.nodes, records)[x] == StepsOf(prev.nodes, records)[x]
  {
    DoneOfLocated(prev.nodes, k, done);
    assert |Prefix(next.nodes, k)| == k;
    assert Ids(next.nodes)[..k] == Prefix(next.nodes, k);
    forall x | x in done && x in StepsOf(prev.nodes, records) && x in StepsOf(next.nodes, records)
      ensures StepsOf(next.nodes, records)[x] == StepsOf(prev.nodes, records)[x]
    {
      SameContract(prev, next, records, x);
    }
  }

  /** Adopting a monotone graph keeps the run on track: skipping the completed
      nodes, it is a run of the new graph. */
  lemma {:induction false} ReplanStaysOnTrack(run: TaskRun, k: nat, next: ExecutionGraph, records: Records,
                                              facts: State)
    requires OnTrack(run, k, records, facts) && Monotone(run.graph, next, run.done) && Usable(next, records)
    ensures OnTrack(run.(graph := next), k, records, facts)
  {
    MonotonePrefix(run.graph, next, run.done, k, records);
    IdsAreSteps(next, records);
    LocatedReplan(Ids(run.graph.nodes), StepsOf(run.graph.nodes, records), run.done, run.world, k, facts,
                  Ids(next.nodes), StepsOf(next.nodes, records));
  }

  lemma {:induction false} StepStaysOnTrack(run: TaskRun, k: nat, e: Event, records: Records, gated: bool, facts: State)
    returns (j: nat)
    requires OnTrack(run, k, records, facts)
    requires gated ==> e.Adopt? && Monotone(run.graph, e.graph, run.done) && Usable(e.graph, records)
    ensures OnTrack(Step(run, e, records, gated), j, records, facts) && k <= j
  {
    var ids, steps := Ids(run.graph.nodes), StepsOf(run.graph.nodes, records);
    j := k;
    if e.Succeed? {
      LocatedNext(ids, steps, run.done, run.world, k, facts, 0);
      if k < |ids| {
        LocatedSucceeds(ids, steps, run.done, run.world, k, facts);
        j := k + 1;
      }
    } else if e.Adopt? && gated {
      ReplanStaysOnTrack(run, k, e.graph, records, facts);
    }
  }

  /** A run from the initial facts through a sequence of events. */
  ghost predicate Reached(g: ExecutionGraph, events: seq<Event>, records: Records, facts: seq<Ref>,
                          objects: set<string>,
                          run: TaskRun)
    requires FactsParse(facts)
    decreases |events|
  {
    if events == [] then run == TaskRun(g, {}, FactSet(facts))
    else
      var e := events[|events| - 1];
      exists before: TaskRun ::
        && Reached(g, events[..|events| - 1], records, facts, objects, before)
        && Usable(before.graph, records)
        && run == Step(before, e, records, e.Adopt? && Gate(before, e.graph, records, facts, objects))
  }

  ghost predicate Safe(run: TaskRun, k: nat, records: Records, facts: seq<Ref>, objects: set<string>)
    requires FactsParse(facts)
  {
    && OnTrack(run, k, records, FactSet(facts))
    && Legal(run.graph, records, facts, objects) && ListOrdered(run.graph)
  }

  lemma {:induction false} LegalIsUsable(g: ExecutionGraph, records: Records, facts: seq<Ref>, objects: set<string>)
    requires Legal(g, records, facts, objects)
    ensures Usable(g, records) && FactsParse(facts)
  {
  }

  lemma {:induction false} StepStaysSafe(before: TaskRun, k: nat, e: Event, records: Records, facts: seq<Ref>,
                                         objects: set<string>)
    returns (j: nat)
    requires FactsParse(facts) && Safe(before, k, records, facts, objects)
    ensures Safe(Step(before, e, records, e.Adopt? && Gate(before, e.graph, records, facts, objects)), j,
                 records, facts, objects)
  {
    var gated := e.Adopt? && Gate(before, e.graph, records, facts, objects);
    if gated {
      LegalIsUsable(e.graph, records, facts, objects);
    }
    j := StepStaysOnTrack(before, k, e, records, gated, FactSet(facts));
    StepGraph(before, e, records, gated);
  }

  lemma {:induction false} StepGraph(run: TaskRun, e: Event, records: Records, gated: bool)
    requires Usable(run.graph, records)
    ensures Step(run, e, records, gated).graph == if e.Adopt? && gated then e.graph else run.graph
  {
  }

  /** Any number of successes, failures and gated replans keeps a run on track,
      on a legal graph whose list order respects `after`. */
  lemma {:induction false} RunsStayOnTrack(g: ExecutionGraph, events: seq<Event>, records: Records, facts: seq<Ref>,
                                           objects: set<string>, run: TaskRun) returns (k: nat)
    requires FactsParse(facts) && Legal(g, records, facts, objects) && ListOrdered(g)
    requires Reached(g, events, records, facts, objects, run)
    ensures Safe(run, k, records, facts, objects)
    decreases |events|
  {
    if events == [] {
      LegalIsUsable(g, records, facts, objects);
      StartsOnTrack(g, records, FactSet(facts));
      k := 0;
    } else {
      var e := events[|events| - 1];
      var before: TaskRun :| Reached(g, events[..|events| - 1], records, facts, objects, before)
        && Usable(before.graph, records)
        && run == Step(before, e, records, e.Adopt? && Gate(before, e.graph, records, facts, objects));
      k := RunsStayOnTrack(g, events[..|events| - 1], records, facts, objects, before);
      k := StepStaysSafe(before, k, e, records, facts, objects);
    }
  }

  /** What being on track means: the next node's requirements hold in the world,
      however many replans came before. */
  lemma {:induction false} NextRequirementsHold(run: TaskRun, k: nat, records: Records, facts: seq<Ref>,
                                                objects: set<string>, p: string)
    requires FactsParse(facts) && Safe(run, k, records, facts, objects) && k < |run.graph.nodes|
    requires p in StepsOf(run.graph.nodes, records)[run.graph.nodes[k].id].req
    ensures p in run.world
  {
    LegalRuns.RequirementsHold(run.graph, records, facts, objects, Ids(run.graph.nodes), k, p);
  }

  /** And the goals of every task whose members are completed hold in the world,
      until a node that all of them precede has run. */
  lemma {:induction false} CompletedGoalsHold(run: TaskRun, k: nat, records: Records, facts: seq<Ref>,
                                              objects: set<string>,
                           t: Task, p: string)
    requires FactsParse(facts) && Safe(run, k, records, facts, objects) && t in run.graph.tasks && p in t.goal
    requires forall x :: x in MembersOf(run.graph.nodes, t.id) ==> x in run.done
    requires AfterTask(Closure(AfterGraph(run.graph.nodes)), MembersOf(run.graph.nodes, t.id)) !! run.done
    ensures p in run.world
  {
    NoneDone(Ids(run.graph.nodes)[..k], run.done,
             AfterTask(Closure(AfterGraph(run.graph.nodes)), MembersOf(run.graph.nodes, t.id)));
    LegalRuns.GoalsHold(run.graph, records, facts, objects, Ids(run.graph.nodes), t, p, k);
  }

  lemma {:induction false} NoneDone(order: seq<string>, done: set<string>, exempt: set<string>)
    requires done == Elements(order) && exempt !! done
    ensures NoneAmong(order, exempt)
  {
    assert forall i :: 0 <= i < |order| ==> order[i] in done;
  }
}
