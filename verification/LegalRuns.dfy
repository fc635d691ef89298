/** What Legal(G) buys: in every linear extension of a legal graph the
    requirements of each node hold on entry, its entities exist, and the goals of
    each task hold when the task finishes. */
module LegalRuns {
  import opened Options
  import opened Digraph
  import opened Plans
  import opened PredRefs
  import opened Legality

  lemma {:induction false} NodeOf(nodes: seq<Node>, id: string) returns (i: nat)
    requires id in NodeMap(nodes)
    ensures i < |nodes| && nodes[i].id == id && nodes[i] == NodeMap(nodes)[id]
  {
    i :| 0 <= i < |nodes| && nodes[i] == NodeMap(nodes)[id];
  }

  lemma {:induction false} NodeMapAt(nodes: seq<Node>, i: nat)
    requires UniqueIds(nodes) && i < |nodes|
    ensures NodeMap(nodes)[nodes[i].id] == nodes[i]
  {
    var n := NodeMap(nodes)[nodes[i].id];
    var j :| 0 <= j < |nodes| && nodes[j] == n;
    assert nodes[j].id == nodes[i].id;
  }

  /** Every instantiated requirement holds on entry to its node, in every linear extension. */
  lemma {:induction false} RequirementsHold(g: ExecutionGraph, records: Records, facts: seq<Ref>, objects: set<string>,
                         order: seq<string>, i: nat, p: string)
    requires Legal(g, records, facts, objects)
    requires LinearExtension(AfterGraph(g.nodes), order) && i < |order|
    requires order[i] in StepsOf(g.nodes, records) && p in StepsOf(g.nodes, records)[order[i]].req
    ensures (forall x :: x in order ==> x in StepsOf(g.nodes, records))
    ensures p in Run(StepsOf(g.nodes, records), order[..i], FactSet(facts))
  {
    var after, steps := AfterGraph(g.nodes), StepsOf(g.nodes, records);
    var k := NodeOf(g.nodes, order[i]);
    assert NodeSupported(g.nodes[k], Closure(after), steps, FactSet(facts));
    var r :| 0 <= r < |steps[order[i]].req| && steps[order[i]].req[r] == p;
    SupportedHolds(after, steps, FactSet(facts), order[i], p);
    OrderIsOfSteps(after, steps, order);
    assert HoldsOnEntry(steps, order, FactSet(facts), order[i], p);
  }

  /** Every entity argument is an initial object or occurs in an atom that an
      already executed node ensures. */
  lemma {:induction false} EntitiesExist(g: ExecutionGraph, records: Records, facts: seq<Ref>, objects: set<string>,
                      order: seq<string>, i: nat, k: string)
    requires Legal(g, records, facts, objects)
    requires LinearExtension(AfterGraph(g.nodes), order) && i < |order|
    requires order[i] in NodeMap(g.nodes) && k in NodeMap(g.nodes)[order[i]].args
    requires k in records[NodeMap(g.nodes)[order[i]].skill].args
    requires records[NodeMap(g.nodes)[order[i]].skill].args[k] == "entity"
    ensures NodeMap(g.nodes)[order[i]].args[k].text in objects
      || exists j, e :: 0 <= j < i && order[j] in StepsOf(g.nodes, records)
           && 0 <= e < |StepsOf(g.nodes, records)[order[j]].ens|
           && MentionsIn(StepsOf(g.nodes, records)[order[j]].ens[e], NodeMap(g.nodes)[order[i]].args[k].text)
  {
    var after, steps := AfterGraph(g.nodes), StepsOf(g.nodes, records);
    var x := NodeOf(g.nodes, order[i]);
    var v := g.nodes[x].args[k].text;
    assert NodeGrounded(g.nodes[x], records[g.nodes[x].skill], Closure(after), steps, objects);
    if v !in objects {
      var m :| m in Closure(after)[order[i]] && m in steps &&
        exists e :: 0 <= e < |steps[m].ens| && v in ParseText(steps[m].ens[e]).value.args;
      var e :| 0 <= e < |steps[m].ens| && v in ParseText(steps[m].ens[e]).value.args;
      assert Precedes(Closure(after), m, order[i]);
      var j := StandsEarlier(after, order, m, i);
      assert MentionsIn(steps[order[j]].ens[e], v);
    }
  }

  /** The atom printed as `p` has `v` among its arguments. */
  predicate MentionsIn(p: string, v: string) {
    ParseText(p).Some? && v in ParseText(p).value.args
  }

  predicate AllDone(g: ExecutionGraph, t: Task, done: seq<string>) {
    forall x :: x in MembersOf(g.nodes, t.id) ==> x in done
  }

  /** A task goal holds in every state after all members have run and before any
      node that every member strictly precedes has run. */
  lemma {:induction false} GoalsHold(g: ExecutionGraph, records: Records, facts: seq<Ref>, objects: set<string>,
                  order: seq<string>, t: Task, p: string, k: nat)
    requires Legal(g, records, facts, objects) && t in g.tasks && p in t.goal
    requires LinearExtension(AfterGraph(g.nodes), order) && k <= |order|
    requires AllDone(g, t, order[..k])
    requires NoneAmong(order[..k], AfterTask(Closure(AfterGraph(g.nodes)), MembersOf(g.nodes, t.id)))
    ensures forall x :: x in order ==> x in StepsOf(g.nodes, records)
    ensures p in Run(StepsOf(g.nodes, records), order[..k], FactSet(facts))
  {
    var i :| 0 <= i < |g.tasks| && g.tasks[i] == t;
    assert TaskCovered(t, g.nodes, Closure(AfterGraph(g.nodes)), StepsOf(g.nodes, records));
    var j :| 0 <= j < |t.goal| && t.goal[j] == p;
    CoveredHolds(AfterGraph(g.nodes), StepsOf(g.nodes, records), FactSet(facts), MembersOf(g.nodes, t.id), p, order, k);
  }

  /** In particular, at the moment the last member finishes. */
  lemma {:induction false} GoalsHoldAtTaskEnd(g: ExecutionGraph, records: Records, facts: seq<Ref>,
                                              objects: set<string>,
                           order: seq<string>, t: Task, p: string, k: nat)
    requires Legal(g, records, facts, objects) && t in g.tasks && p in t.goal
    requires LinearExtension(AfterGraph(g.nodes), order) && 0 < k <= |order|
    requires AllDone(g, t, order[..k])
    requires order[k - 1] in MembersOf(g.nodes, t.id)
    ensures forall x :: x in order ==> x in StepsOf(g.nodes, records)
    ensures p in Run(StepsOf(g.nodes, records), order[..k], FactSet(facts))
  {
    LastMember(AfterGraph(g.nodes), MembersOf(g.nodes, t.id), order, k);
    GoalsHold(g, records, facts, objects, order, t, p, k);
  }

  // --------------------------------------------------- a graph that is legal

  function Bare(name: string): (r: Ref) {
    Split(Atom(name, []))
  }

  function Printed(name: string): (r: string) {
    Print(Atom(name, []))
  }

  /** One node that requires and clobbers `p` and ensures its task's goal `q`. */
  function OneNode(task: string, id: string, skill: string, kind: string, q: string): (r: ExecutionGraph) {
    ExecutionGraph([Task(task, [Printed(q)])], [Node(id, task, skill, map[], [], None, kind)])
  }

  function OneRecord(skill: string, p: string, q: string): (r: Record) {
    Record(skill, map[], [Bare(p)], [Bare(q)], [Bare(p)], {})
  }

  lemma {:induction false} BareInstance(p: string, env: map<string, string>)
    ensures Canonical(Bare(p)) == Some(Printed(p)) && InstantiateAll([Bare(p)], env) == Some([Printed(p)])
  {
    var refs := [Bare(p)];
    assert refs[..0] == [] && refs[0] == Bare(p);
    assert Substitute([], env) == [];
    assert Instantiate(Bare(p), env) == Some(Printed(p));
    assert InstantiateAll(refs[..0], env) == Some([]);
    assert [] + [Printed(p)] == [Printed(p)];
  }

  lemma {:induction false} OneStep(n: Node, skill: string, p: string, q: string)
    ensures StepOf(n, OneRecord(skill, p, q)) == Some(Step([Printed(p)], [Printed(q)], {Printed(p)}))
  {
    BareInstance(p, Env(n));
    BareInstance(q, Env(n));
    assert Elements([Printed(p)]) == {Printed(p)};
  }

  lemma {:induction false} OneNodeMap(n: Node)
    ensures NodeMap([n]) == map[n.id := n] && MembersOf([n], n.task) == [n.id]
  {
    assert [n][..0] == [] && [n][1..] == [];
  }

  lemma {:induction false} OneNodeClosure(id: string)
    ensures var after: Graph := map[id := []];
            Closed(after) && Acyclic(after) && Closure(after) == map[id := {}]
  {
    var after: Graph := map[id := []];
    forall x, y
      ensures !Reaches(after, x, y)
    {
      if Reaches(after, x, y) {
        var z := FirstStep(after, x, y);
      }
    }
    assert Closure(after)[id] == {};
  }

  lemma {:induction false} OneNodeTables(n: Node, records: Records, p: string, q: string)
    requires n.after == [] && n.skill in records && records[n.skill] == OneRecord(n.skill, p, q)
    ensures SkillsKnown([n], records) && ContractsParse([n], records) && AfterGraph([n]) == map[n.id := []]
    ensures StepsOf([n], records) == map[n.id := Step([Printed(p)], [Printed(q)], {Printed(p)})]
  {
    OneNodeMap(n);
    OneStep(n, n.skill, p, q);
  }

  /** Legality asks for nothing impossible: this graph is legal, whatever its names. */
  lemma {:induction false} OneNodeIsLegal(task: string, id: string, skill: string, kind: string, p: string, q: string)
    ensures Legal(OneNode(task, id, skill, kind, q), map[skill := OneRecord(skill, p, q)], [Bare(p)], {})
  {
    var g, records: Records := OneNode(task, id, skill, kind, q), map[skill := OneRecord(skill, p, q)];
    var n, steps := g.nodes[0], map[id := Step([Printed(p)], [Printed(q)], {Printed(p)})];
    OneNodeTables(n, records, p, q);
    OneNodeClosure(id);
    OneNodeMap(n);
    assert g.nodes == [n] && WellOrdered(g, records);
    OneFact(p);
    AloneIsTyped(g, records, map[id := {}], steps, Printed(p));
    AloneIsSupported(g, map[id := {}], steps, Printed(p));
  }

  lemma {:induction false} OneFact(p: string)
    ensures FactsParse([Bare(p)]) && FactSet([Bare(p)]) == {Printed(p)}
  {
    BareInstance(p, map[]);
    assert Canonical([Bare(p)][0]).value in FactSet([Bare(p)]);
  }

  /** A single node whose step requires and clobbers `p` and ensures its task's goals. */
  ghost predicate Alone(g: ExecutionGraph, anc: Table, steps: Steps, p: string) {
    && |g.nodes| == 1 && |g.tasks| == 1
    && var n, t := g.nodes[0], g.tasks[0];
       && t.id == n.task && |t.goal| == 1 && MembersOf(g.nodes, n.task) == [n.id]
       && n.args == map[] && n.executor == None
       && anc == map[n.id := {}] && steps == map[n.id := Step([p], t.goal, {p})]
  }

  lemma {:induction false} AloneIsTyped(g: ExecutionGraph, records: Records, anc: Table, steps: Steps, p: string)
    requires Alone(g, anc, steps, p) && SkillsKnown(g.nodes, records) && records[g.nodes[0].skill].args == map[]
    ensures AllReadable(g, anc, steps)
    ensures AllTyped(g, records) && AllBound(g, records) && AllGrounded(g, records, anc, steps, {})
  {
  }

  lemma {:induction false} AloneIsSupported(g: ExecutionGraph, anc: Table, steps: Steps, p: string)
    requires Alone(g, anc, steps, p)
    ensures AllSupported(g, anc, steps, {p}) && AllCovered(g, anc, steps)
  {
    var n, t := g.nodes[0], g.tasks[0];
    assert Supported(anc, steps, {p}, n.id, p);
    OneNodeCovers(n.id, anc, steps, t.goal[0]);
    assert TaskCovered(t, g.nodes, anc, steps);
  }

  lemma {:induction false} OneNodeCovers(id: string, anc: Table, steps: Steps, q: string)
    requires id in steps && steps.Keys == {id} && q in steps[id].ens
    ensures Covered(anc, steps, [id], q)
  {
    assert id in [id] && Unthreatened(anc, steps, q, Some(id), None, AfterTask(anc, [id]));
  }
}
