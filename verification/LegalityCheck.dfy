/** The validator `validate_graph`: loops that collect problems, shown to report
    exactly the problems there are and to accept exactly the legal graphs. */
module LegalityCheck {
  import opened Options
  import opened Digraph
  import opened Plans
  import opened PredRefs
  import opened Legality
  import Ancestors

  // ------------------------------------------------------- one node, one task

  predicate ArgTypeProblem(n: Node, rec: Record, tasks: seq<Task>, q: Problem) {
    (q.UnknownType? || q.WrongType?) && TypedProblem(n, rec, tasks, q)
  }

  method TypedProblems(n: Node, rec: Record, tasks: seq<Task>) returns (ps: seq<Problem>)
    ensures forall q :: q in ps <==> TypedProblem(n, rec, tasks, q)
  {
    ps := [];
    if forall i :: 0 <= i < |tasks| ==> tasks[i].id != n.task {
      ps := ps + [UnknownTask(n.id, n.task)];
    }
    var missing, unknown := rec.args.Keys - n.args.Keys, n.args.Keys - rec.args.Keys;
    if missing != {} || unknown != {} {
      ps := ps + [ArgNames(n.id, missing, unknown)];
    }
    ghost var shape := ps;
    var keys := n.args.Keys;
    while keys != {}
      invariant keys <= n.args.Keys
      invariant forall q :: q in ps <==> (q in shape || (ArgTypeProblem(n, rec, tasks, q) && q.arg !in keys))
    {
      var k :| k in keys;
      if k in rec.args {
        var t := TypeNamed(rec.args[k]);
        if t.None? {
          ps := ps + [UnknownType(rec.id, k, rec.args[k])];
        } else if t.value != n.args[k].pyType {
          ps := ps + [WrongType(n.id, k, rec.args[k])];
        }
      }
      keys := keys - {k};
    }
  }

  method GroundedProblems(n: Node, rec: Record, anc: Table, steps: Steps, objects: set<string>)
    returns (ps: seq<Problem>)
    requires Readable(anc, steps, n.id)
    ensures forall q :: q in ps <==> GroundedProblem(n, rec, anc, steps, objects, q)
  {
    ps := [];
    var keys := n.args.Keys;
    while keys != {}
      invariant keys <= n.args.Keys
      invariant forall q :: q in ps <==> GroundedProblem(n, rec, anc, steps, objects, q) && q.arg !in keys
    {
      var k :| k in keys;
      if k in rec.args && rec.args[k] == "entity"
        && n.args[k].text !in objects && !Produced(anc, steps, n.id, n.args[k].text) {
        ps := ps + [Ungrounded(n.id, k)];
      }
      keys := keys - {k};
    }
  }

  method SupportProblems(n: Node, anc: Table, steps: Steps, facts: State) returns (ps: seq<Problem>)
    requires n.id in steps
    ensures forall q :: q in ps <==> SupportProblem(n, anc, steps, facts, q)
  {
    ps := [];
    var req := steps[n.id].req;
    for i := 0 to |req|
      invariant forall q :: q in ps <==> SupportProblem(n, anc, steps, facts, q) && q.atom in req[..i]
    {
      var p := req[i];
      assert req[..i + 1] == req[..i] + [p];
      if !HasSupporter(anc, steps, facts, n.id, p) {
        ps := ps + [NothingProvides(n.id, p)];
      } else if !Supported(anc, steps, facts, n.id, p) {
        ps := ps + [EverySupporterThreatened(n.id, p)];
      }
    }
    assert req[..|req|] == req;
  }

  method CoverProblems(t: Task, nodes: seq<Node>, anc: Table, steps: Steps) returns (ps: seq<Problem>)
    ensures forall q :: q in ps <==> CoverProblem(t, nodes, anc, steps, q)
  {
    ps := [];
    var members := MembersOf(nodes, t.id);
    for i := 0 to |t.goal|
      invariant forall q :: q in ps <==> CoverProblem(t, nodes, anc, steps, q) && q.atom in t.goal[..i]
    {
      var p := t.goal[i];
      assert t.goal[..i + 1] == t.goal[..i] + [p];
      if !Ensured(steps, members, p) {
        ps := ps + [GoalNotEnsured(t.id, p)];
      } else if !Covered(anc, steps, members, p) {
        ps := ps + [GoalClobbered(t.id, p)];
      }
    }
    assert t.goal[..|t.goal|] == t.goal;
  }

  // ------------------------------------------------------------ whole phases

  method CheckTyped(g: ExecutionGraph, records: Records) returns (ps: seq<Problem>)
    requires SkillsKnown(g.nodes, records)
    ensures forall q :: q in ps <==> TypedUpTo(g, records, |g.nodes|, q)
  {
    ps := [];
    for k := 0 to |g.nodes|
      invariant forall q :: q in ps <==> TypedUpTo(g, records, k, q)
    {
      var more := TypedProblems(g.nodes[k], records[g.nodes[k].skill], g.tasks);
      ps := ps + more;
    }
  }

  method CheckBound(g: ExecutionGraph, records: Records) returns (ps: seq<Problem>)
    requires SkillsKnown(g.nodes, records)
    ensures forall q :: q in ps <==> BoundUpTo(g, records, |g.nodes|, q)
  {
    ps := [];
    for k := 0 to |g.nodes|
      invariant forall q :: q in ps <==> BoundUpTo(g, records, k, q)
    {
      var n, rec := g.nodes[k], records[g.nodes[k].skill];
      if n.executor.Some? && n.executor.value !in rec.policies + {"scripted"} {
        ps := ps + [Unbound(n.id, n.executor.value)];
      }
    }
  }

  method CheckGrounded(g: ExecutionGraph, records: Records, anc: Table, steps: Steps, objects: set<string>)
    returns (ps: seq<Problem>)
    requires SkillsKnown(g.nodes, records)
    requires forall i :: 0 <= i < |g.nodes| ==> Readable(anc, steps, g.nodes[i].id)
    ensures forall q :: q in ps <==> GroundedUpTo(g, records, anc, steps, objects, |g.nodes|, q)
  {
    ps := [];
    for k := 0 to |g.nodes|
      invariant forall q :: q in ps <==> GroundedUpTo(g, records, anc, steps, objects, k, q)
    {
      var more := GroundedProblems(g.nodes[k], records[g.nodes[k].skill], anc, steps, objects);
      ps := ps + more;
    }
  }

  method CheckSupported(g: ExecutionGraph, anc: Table, steps: Steps, facts: State) returns (ps: seq<Problem>)
    requires forall i :: 0 <= i < |g.nodes| ==> g.nodes[i].id in steps
    ensures forall q :: q in ps <==> SupportUpTo(g, anc, steps, facts, |g.nodes|, q)
  {
    ps := [];
    for k := 0 to |g.nodes|
      invariant forall q :: q in ps <==> SupportUpTo(g, anc, steps, facts, k, q)
    {
      var more := SupportProblems(g.nodes[k], anc, steps, facts);
      ps := ps + more;
    }
  }

  method CheckCovered(g: ExecutionGraph, anc: Table, steps: Steps) returns (ps: seq<Problem>)
    ensures forall q :: q in ps <==> CoverUpTo(g, anc, steps, |g.tasks|, q)
  {
    ps := [];
    for k := 0 to |g.tasks|
      invariant forall q :: q in ps <==> CoverUpTo(g, anc, steps, k, q)
    {
      var more := CoverProblems(g.tasks[k], g.nodes, anc, steps);
      ps := ps + more;
    }
  }

  /** `_resolve`. */
  method Resolve(g: ExecutionGraph, records: Records) returns (ps: seq<Problem>)
    ensures forall q :: q in ps <==>
      (DuplicateUpTo(g.nodes, |g.nodes|, q) || UnknownSkillUpTo(g.nodes, records, |g.nodes|, q))
    ensures ps == [] <==> UniqueIds(g.nodes) && SkillsKnown(g.nodes, records)
  {
    ps := [];
    for k := 0 to |g.nodes|
      invariant forall q :: q in ps <==> DuplicateUpTo(g.nodes, k, q)
    {
      if exists i :: 0 <= i < k && g.nodes[i].id == g.nodes[k].id {
        ps := ps + [DuplicateNode(g.nodes[k].id)];
      }
    }
    for k := 0 to |g.nodes|
      invariant forall q :: q in ps <==>
        (DuplicateUpTo(g.nodes, |g.nodes|, q) || UnknownSkillUpTo(g.nodes, records, k, q))
    {
      if g.nodes[k].skill !in records {
        ps := ps + [UnknownSkill(g.nodes[k].id, g.nodes[k].skill)];
      }
    }
    ResolveDecides(g, records, ps);
  }

  lemma {:induction false} ResolveDecides(g: ExecutionGraph, records: Records, ps: seq<Problem>)
    requires forall q :: q in ps <==>
      (DuplicateUpTo(g.nodes, |g.nodes|, q) || UnknownSkillUpTo(g.nodes, records, |g.nodes|, q))
    ensures ps == [] <==> UniqueIds(g.nodes) && SkillsKnown(g.nodes, records)
  {
    if ps == [] {
      forall i, j | 0 <= i < j < |g.nodes|
        ensures g.nodes[i].id != g.nodes[j].id
      {
        assert !DuplicateUpTo(g.nodes, |g.nodes|, DuplicateNode(g.nodes[j].id));
      }
      forall i | 0 <= i < |g.nodes|
        ensures g.nodes[i].skill in records
      {
        assert !UnknownSkillUpTo(g.nodes, records, |g.nodes|, UnknownSkill(g.nodes[i].id, g.nodes[i].skill));
      }
    } else {
      assert ps[0] in ps;
    }
  }

  method OrderProblems(order: seq<Ancestors.OrderProblem>) returns (ps: seq<Problem>)
    ensures forall q :: q in ps <==> q.BadOrder? && q.order in order
    ensures |ps| == |order|
  {
    ps := [];
    for k := 0 to |order|
      invariant forall q :: q in ps <==> q.BadOrder? && q.order in order[..k]
      invariant |ps| == k
    {
      assert order[..k + 1] == order[..k] + [order[k]];
      ps := ps + [BadOrder(order[k])];
    }
    assert order[..|order|] == order;
  }

  /** `_resolve` followed by `_ancestors`. */
  method Structure(g: ExecutionGraph, records: Records) returns (anc: Table, ps: seq<Problem>)
    ensures ps == [] <==> WellOrdered(g, records)
    ensures ps == [] ==> anc == Closure(AfterGraph(g.nodes))
    ensures forall q :: q in ps ==> StructuralProblem(g, records, q)
    ensures forall q :: StructuralProblem(g, records, q) && !(q.BadOrder? && q.order.CycleThrough?) ==> q in ps
  {
    ps := Resolve(g, records);
    IdsAreKeys(g.nodes);
    var order;
    anc, order := Ancestors.AncestorsOf(AfterGraph(g.nodes), Ids(g.nodes));
    var more := OrderProblems(order);
    ps := ps + more;
  }

  lemma {:induction false} IdsAreKeys(nodes: seq<Node>)
    ensures Elements(Ids(nodes)) == NodeMap(nodes).Keys == AfterGraph(nodes).Keys
  {
    forall id | id in NodeMap(nodes)
      ensures id in Ids(nodes)
    {
      var i :| 0 <= i < |nodes| && nodes[i] == NodeMap(nodes)[id];
      assert Ids(nodes)[i] == id;
    }
  }

  // ------------------------------------------------------ the whole validator

  lemma {:induction false} TypedFree(n: Node, rec: Record, tasks: seq<Task>)
    ensures (forall q :: !TypedProblem(n, rec, tasks, q)) <==> NodeTyped(n, rec, tasks)
  {
    if forall q :: !TypedProblem(n, rec, tasks, q) {
      assert !TypedProblem(n, rec, tasks, UnknownTask(n.id, n.task));
      assert !TypedProblem(n, rec, tasks, ArgNames(n.id, rec.args.Keys - n.args.Keys, n.args.Keys - rec.args.Keys));
      forall k | k in n.args
        ensures k in rec.args && TypeNamed(rec.args[k]) == Some(n.args[k].pyType)
      {
        assert k !in n.args.Keys - rec.args.Keys;
        assert !TypedProblem(n, rec, tasks, UnknownType(rec.id, k, rec.args[k]));
        assert !TypedProblem(n, rec, tasks, WrongType(n.id, k, rec.args[k]));
      }
      assert forall k :: k in rec.args ==> k !in rec.args.Keys - n.args.Keys;
    }
  }

  lemma {:induction false} BoundFree(n: Node, rec: Record)
    ensures (forall q :: !BoundProblem(n, rec, q)) <==> NodeBound(n, rec)
  {
    if n.executor.Some? {
      assert BoundProblem(n, rec, Unbound(n.id, n.executor.value)) <==> !NodeBound(n, rec);
    }
  }

  lemma {:induction false} GroundedFree(n: Node, rec: Record, anc: Table, steps: Steps, objects: set<string>)
    requires Readable(anc, steps, n.id)
    ensures (forall q :: !GroundedProblem(n, rec, anc, steps, objects, q)) <==>
      NodeGrounded(n, rec, anc, steps, objects)
  {
    if !NodeGrounded(n, rec, anc, steps, objects) {
      var k :| k in n.args && k in rec.args && rec.args[k] == "entity"
        && !(n.args[k].text in objects || Produced(anc, steps, n.id, n.args[k].text));
      assert GroundedProblem(n, rec, anc, steps, objects, Ungrounded(n.id, k));
    }
  }

  lemma {:induction false} SupportFree(n: Node, anc: Table, steps: Steps, facts: State)
    requires n.id in steps
    ensures (forall q :: !SupportProblem(n, anc, steps, facts, q)) <==> NodeSupported(n, anc, steps, facts)
  {
    if !NodeSupported(n, anc, steps, facts) {
      var i :| 0 <= i < |steps[n.id].req| && !Supported(anc, steps, facts, n.id, steps[n.id].req[i]);
      var p := steps[n.id].req[i];
      assert SupportProblem(n, anc, steps, facts, NothingProvides(n.id, p))
        || SupportProblem(n, anc, steps, facts, EverySupporterThreatened(n.id, p));
    }
  }

  lemma {:induction false} CoverFree(t: Task, nodes: seq<Node>, anc: Table, steps: Steps)
    ensures (forall q :: !CoverProblem(t, nodes, anc, steps, q)) <==> TaskCovered(t, nodes, anc, steps)
  {
    if !TaskCovered(t, nodes, anc, steps) {
      var i :| 0 <= i < |t.goal| && !Covered(anc, steps, MembersOf(nodes, t.id), t.goal[i]);
      assert CoverProblem(t, nodes, anc, steps, GoalNotEnsured(t.id, t.goal[i]))
        || CoverProblem(t, nodes, anc, steps, GoalClobbered(t.id, t.goal[i]));
    }
  }

  lemma {:induction false} TypedPhase(g: ExecutionGraph, records: Records)
    requires SkillsKnown(g.nodes, records)
    ensures (forall q :: !TypedUpTo(g, records, |g.nodes|, q)) <==> AllTyped(g, records)
  {
    if forall q :: !TypedUpTo(g, records, |g.nodes|, q) {
      forall i | 0 <= i < |g.nodes|
        ensures NodeTyped(g.nodes[i], records[g.nodes[i].skill], g.tasks)
      {
        forall q
          ensures !TypedProblem(g.nodes[i], records[g.nodes[i].skill], g.tasks, q)
        {
          assert !TypedUpTo(g, records, |g.nodes|, q);
        }
        TypedFree(g.nodes[i], records[g.nodes[i].skill], g.tasks);
      }
    } else {
      var q, i :| 0 <= i < |g.nodes| && TypedProblem(g.nodes[i], records[g.nodes[i].skill], g.tasks, q);
      TypedFree(g.nodes[i], records[g.nodes[i].skill], g.tasks);
    }
  }

  lemma {:induction false} BoundPhase(g: ExecutionGraph, records: Records)
    requires SkillsKnown(g.nodes, records)
    ensures (forall q :: !BoundUpTo(g, records, |g.nodes|, q)) <==> AllBound(g, records)
  {
    if forall q :: !BoundUpTo(g, records, |g.nodes|, q) {
      forall i | 0 <= i < |g.nodes|
        ensures NodeBound(g.nodes[i], records[g.nodes[i].skill])
      {
        forall q
          ensures !BoundProblem(g.nodes[i], records[g.nodes[i].skill], q)
        {
          assert !BoundUpTo(g, records, |g.nodes|, q);
        }
        BoundFree(g.nodes[i], records[g.nodes[i].skill]);
      }
    } else {
      var q, i :| 0 <= i < |g.nodes| && BoundProblem(g.nodes[i], records[g.nodes[i].skill], q);
      BoundFree(g.nodes[i], records[g.nodes[i].skill]);
    }
  }

  lemma {:induction false} GroundedPhase(g: ExecutionGraph, records: Records, anc: Table, steps: Steps,
                                         objects: set<string>)
    requires SkillsKnown(g.nodes, records)
    requires AllReadable(g, anc, steps)
    ensures (forall q :: !GroundedUpTo(g, records, anc, steps, objects, |g.nodes|, q)) <==>
      AllGrounded(g, records, anc, steps, objects)
  {
    if forall q :: !GroundedUpTo(g, records, anc, steps, objects, |g.nodes|, q) {
      forall i | 0 <= i < |g.nodes|
        ensures NodeGrounded(g.nodes[i], records[g.nodes[i].skill], anc, steps, objects)
      {
        forall q
          ensures !GroundedProblem(g.nodes[i], records[g.nodes[i].skill], anc, steps, objects, q)
        {
          assert !GroundedUpTo(g, records, anc, steps, objects, |g.nodes|, q);
        }
        GroundedFree(g.nodes[i], records[g.nodes[i].skill], anc, steps, objects);
      }
    } else {
      var q, i :| 0 <= i < |g.nodes| && GroundedProblem(g.nodes[i], records[g.nodes[i].skill], anc, steps, objects, q);
      GroundedFree(g.nodes[i], records[g.nodes[i].skill], anc, steps, objects);
    }
  }

  lemma {:induction false} SupportPhase(g: ExecutionGraph, anc: Table, steps: Steps, facts: State)
    requires forall i :: 0 <= i < |g.nodes| ==> g.nodes[i].id in steps
    ensures (forall q :: !SupportUpTo(g, anc, steps, facts, |g.nodes|, q)) <==> AllSupported(g, anc, steps, facts)
  {
    if forall q :: !SupportUpTo(g, anc, steps, facts, |g.nodes|, q) {
      forall i | 0 <= i < |g.nodes|
        ensures NodeSupported(g.nodes[i], anc, steps, facts)
      {
        forall q
          ensures !SupportProblem(g.nodes[i], anc, steps, facts, q)
        {
          assert !SupportUpTo(g, anc, steps, facts, |g.nodes|, q);
        }
        SupportFree(g.nodes[i], anc, steps, facts);
      }
    } else {
      var q, i :| 0 <= i < |g.nodes| && SupportProblem(g.nodes[i], anc, steps, facts, q);
      SupportFree(g.nodes[i], anc, steps, facts);
    }
  }

  lemma {:induction false} CoverPhase(g: ExecutionGraph, anc: Table, steps: Steps)
    ensures (forall q :: !CoverUpTo(g, anc, steps, |g.tasks|, q)) <==> AllCovered(g, anc, steps)
  {
    if forall q :: !CoverUpTo(g, anc, steps, |g.tasks|, q) {
      forall i | 0 <= i < |g.tasks|
        ensures TaskCovered(g.tasks[i], g.nodes, anc, steps)
      {
        forall q
          ensures !CoverProblem(g.tasks[i], g.nodes, anc, steps, q)
        {
          assert !CoverUpTo(g, anc, steps, |g.tasks|, q);
        }
        CoverFree(g.tasks[i], g.nodes, anc, steps);
      }
    } else {
      var q, i :| 0 <= i < |g.tasks| && CoverProblem(g.tasks[i], g.nodes, anc, steps, q);
      CoverFree(g.tasks[i], g.nodes, anc, steps);
    }
  }

  /** The phases report nothing exactly when their conditions hold. */
  lemma {:induction false} ContractedIsFree(g: ExecutionGraph, records: Records, anc: Table, steps: Steps, facts: State,
                         objects: set<string>)
    requires SkillsKnown(g.nodes, records) && AllReadable(g, anc, steps)
    ensures Contracted(g, records, anc, steps, facts, objects) <==>
      forall q :: !SecondPhase(g, records, anc, steps, facts, objects, q)
  {
    TypedPhase(g, records);
    BoundPhase(g, records);
    GroundedPhase(g, records, anc, steps, objects);
    SupportPhase(g, anc, steps, facts);
    CoverPhase(g, anc, steps);
    if forall q :: !SecondPhase(g, records, anc, steps, facts, objects, q) {
      forall q
        ensures !TypedUpTo(g, records, |g.nodes|, q) && !BoundUpTo(g, records, |g.nodes|, q)
        ensures !GroundedUpTo(g, records, anc, steps, objects, |g.nodes|, q)
        ensures !SupportUpTo(g, anc, steps, facts, |g.nodes|, q) && !CoverUpTo(g, anc, steps, |g.tasks|, q)
      {
        assert !SecondPhase(g, records, anc, steps, facts, objects, q);
      }
    }
  }

  /** A well-ordered graph whose references parse is legal exactly when it has no contract problem. */
  lemma {:induction false} LegalIsProblemFree(g: ExecutionGraph, records: Records, facts: seq<Ref>,
                                              objects: set<string>)
    requires FactsParse(facts) && WellOrdered(g, records) && RefsParse(g, records)
    ensures Legal(g, records, facts, objects) <==>
      forall q :: !ContractProblem(g, records, FactSet(facts), objects, q)
  {
    var anc, steps, known := Closure(AfterGraph(g.nodes)), StepsOf(g.nodes, records), FactSet(facts);
    ContractedIsFree(g, records, anc, steps, known, objects);
    forall q
      ensures ContractProblem(g, records, known, objects, q) <==> SecondPhase(g, records, anc, steps, known, objects, q)
    {
    }
  }

  /** `validate_graph`: raises on a malformed reference it reaches; otherwise it
      accepts exactly the legal graphs and lists every problem of the phase it
      stopped in (of several cycles it names at least one). */
  method ValidateGraph(g: ExecutionGraph, records: Records, facts: seq<Ref>, objects: set<string>)
    returns (r: Verdict)
    ensures r.Raised? <==> !FactsParse(facts) || (WellOrdered(g, records) && !RefsParse(g, records))
    ensures r.Verdict? ==> (r.ok <==> r.problems == [])
    ensures r.Verdict? ==> (r.ok <==> Legal(g, records, facts, objects))
    ensures r.Verdict? && WellOrdered(g, records) ==>
      forall q :: q in r.problems <==> ContractProblem(g, records, FactSet(facts), objects, q)
    ensures r.Verdict? && !WellOrdered(g, records) ==>
      forall q :: (q in r.problems ==> StructuralProblem(g, records, q))
        && (StructuralProblem(g, records, q) && !(q.BadOrder? && q.order.CycleThrough?) ==> q in r.problems)
  {
    if !FactsParse(facts) {
      return Raised;
    }
    var anc, problems := Structure(g, records);
    if problems != [] {
      return Verdict(false, problems);
    }
    if !ContractsParse(g.nodes, records) {
      return Raised;
    }
    var steps := StepsOf(g.nodes, records);
    if !AllReadable(g, anc, steps) {
      return Raised;
    }
    problems := CheckContracts(g, records, steps, anc, FactSet(facts), objects);
    LegalIsProblemFree(g, records, facts, objects);
    if problems != [] {
      assert problems[0] in problems;
    }
    return Verdict(problems == [], problems);
  }

  method CheckContracts(g: ExecutionGraph, records: Records, steps: Steps, anc: Table, facts: State,
                        objects: set<string>) returns (ps: seq<Problem>)
    requires WellOrdered(g, records) && RefsParse(g, records)
    requires steps == StepsOf(g.nodes, records) && anc == Closure(AfterGraph(g.nodes))
    ensures forall q :: q in ps <==> ContractProblem(g, records, facts, objects, q)
  {
    var typed := CheckTyped(g, records);
    var bound := CheckBound(g, records);
    var grounded := CheckGrounded(g, records, anc, steps, objects);
    var supported := CheckSupported(g, anc, steps, facts);
    var covered := CheckCovered(g, anc, steps);
    ps := typed + bound + grounded + supported + covered;
  }
}
