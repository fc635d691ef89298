/** Successive answers of the stateless planner against `replan_monotone`. */
module RecoveryRuns {
  import opened Options
  import opened Digraph
  import opened Legality
  import opened Replan
  import opened Recovery
  import LegalRuns

  /** `plan_to_graph` of plugins/task/validate.py, on the keys a node carries. */
  function ToNode(n: PlanNode, task: string): (r: Node) {
    Node(n.id, if n.task.Some? then n.task.value else task, n.skill, n.args, n.after, n.executor,
         if n.kind.Some? then n.kind.value else "manipulate")
  }

  function ToNodes(plan: Plan, task: string): (r: seq<Node>)
    ensures |r| == |plan| && forall i :: 0 <= i < |plan| ==> r[i] == ToNode(plan[i], task)
  {
    if plan == [] then [] else [ToNode(plan[0], task)] + ToNodes(plan[1..], task)
  }

  function TasksOf(tasks: seq<Task>): (r: seq<Task>)
    ensures |r| >= 1
  {
    if tasks == [] then [Task("main", [])] else tasks
  }

  function ToGraph(plan: Plan, tasks: seq<Task>): (r: ExecutionGraph) {
    ExecutionGraph(TasksOf(tasks), ToNodes(plan, TasksOf(tasks)[0].id))
  }

  // ------------------------------------- rebuilt plans are unique and ordered

  /** The id without its repair prefixes. */
  function Root(id: string): (r: string)
    decreases |id|
  {
    if IsRecoverId(id) then Root(id[|PREFIX|..]) else id
  }

  function ChainIds(x: string, rs: Repairs): (r: set<string>)
    decreases Longer(rs, |x|)
  {
    if x in rs then
      LongerShrinks(rs, x);
      {x} + ChainIds(RecoverId(x), rs)
    else {x}
  }

  lemma {:induction false} ChainShape(x: string, rs: Repairs, id: string)
    requires id in ChainIds(x, rs)
    ensures |id| >= |x| && Root(id) == Root(x)
    decreases Longer(rs, |x|)
  {
    if id != x {
      LongerShrinks(rs, x);
      RecoverIdFacts(x);
      ChainShape(RecoverId(x), rs, id);
    }
  }

  lemma {:induction false} BlockOrdered(n: PlanNode, rs: Repairs, wide: set<string>, rest: Plan)
    requires Elements(n.after) <= wide && ChainIds(n.id, rs) !! wide && Ordered(rest, wide + ChainIds(n.id, rs))
    ensures Ordered(Block(n, rs) + rest, wide)
    decreases Longer(rs, |n.id|)
  {
    if n.id in rs {
      LongerShrinks(rs, n.id);
      var x := RecoverId(n.id);
      var r, last := RecoveryNode(n.id, rs[n.id], n.after), n.(after := n.after + [x]);
      if n.id in ChainIds(x, rs) {
        ChainShape(x, rs, n.id);
      }
      assert x in ChainIds(x, rs);
      assert ([last] + rest)[1..] == rest;
      assert Elements(last.after) == Elements(n.after) + {x};
      assert wide + ChainIds(x, rs) + {n.id} == wide + ChainIds(n.id, rs);
      BlockOrdered(r, rs, wide, [last] + rest);
      assert Block(n, rs) + rest == Block(r, rs) + ([last] + rest);
    } else {
      assert ([n] + rest)[1..] == rest;
    }
  }

  /** A rebuilt plan has unique ids and an order that respects `after`. */
  lemma {:induction false} RepairedOrdered(base: Plan, rs: Repairs, seen: set<string>, wide: set<string>)
    requires Ordered(base, seen) && Plain(base)
    requires seen <= wide && forall w :: w in wide ==> Root(w) in seen
    ensures Ordered(Repaired(base, rs), wide)
  {
    if base != [] {
      var n := base[0];
      forall id | id in ChainIds(n.id, rs)
        ensures Root(id) == n.id
      {
        ChainShape(n.id, rs, id);
      }
      assert n.id in ChainIds(n.id, rs);
      RepairedOrdered(base[1..], rs, seen + {n.id}, wide + ChainIds(n.id, rs));
      BlockOrdered(n, rs, wide, Repaired(base[1..], rs));
    }
  }

  lemma {:induction false} OrderedAt(plan: Plan, seen: set<string>, i: nat)
    requires Ordered(plan, seen) && i < |plan|
    ensures plan[i].id !in seen
    ensures forall j :: 0 <= j < i ==> plan[j].id != plan[i].id
    ensures forall a :: a in plan[i].after ==> a in seen || exists j :: 0 <= j < i && plan[j].id == a
  {
    if i > 0 {
      var s := seen + {plan[0].id};
      OrderedAt(plan[1..], s, i - 1);
      forall j | 0 <= j < i
        ensures plan[j].id != plan[i].id
      {
        assert j > 0 ==> plan[j] == plan[1..][j - 1];
      }
      forall a | a in plan[i].after
        ensures a in seen || exists j :: 0 <= j < i && plan[j].id == a
      {
        if a !in seen && a != plan[0].id {
          var j :| 0 <= j < i - 1 && plan[1..][j].id == a;
          assert plan[j + 1].id == a;
        }
      }
    } else {
      assert forall a :: a in plan[0].after ==> a in Elements(plan[0].after);
    }
  }

  lemma {:induction false} OrderedGraph(plan: Plan, tasks: seq<Task>)
    requires Ordered(plan, {})
    ensures UniqueIds(ToGraph(plan, tasks).nodes)
  {
    forall i, j | 0 <= i < j < |plan|
      ensures plan[i].id != plan[j].id
    {
      OrderedAt(plan, {}, j);
    }
  }

  /** A repair runs its strategy, and a repaired node waits for its repair. */
  predicate Fits(n: PlanNode, rs: Repairs) {
    && (IsRecoverId(n.id) ==> n.id[|PREFIX|..] in rs && n.skill == rs[n.id[|PREFIX|..]])
    && (n.id in rs ==> RecoverId(n.id) in n.after)
  }

  lemma {:induction false} BlockFits(n: PlanNode, rs: Repairs, i: nat)
    requires IsRecoverId(n.id) ==> n.id[|PREFIX|..] in rs && n.skill == rs[n.id[|PREFIX|..]]
    requires i < |Block(n, rs)|
    ensures Fits(Block(n, rs)[i], rs)
    decreases Longer(rs, |n.id|)
  {
    if n.id in rs {
      LongerShrinks(rs, n.id);
      RecoverIdFacts(n.id);
      var r := RecoveryNode(n.id, rs[n.id], n.after);
      if i < |Block(r, rs)| {
        BlockFits(r, rs, i);
      }
    }
  }

  lemma {:induction false} RepairedAt(base: Plan, rs: Repairs, i: nat)
    requires Plain(base) && i < |Repaired(base, rs)|
    ensures Fits(Repaired(base, rs)[i], rs)
  {
    var b := Block(base[0], rs);
    if i < |b| {
      BlockFits(base[0], rs, i);
    } else {
      RepairedAt(base[1..], rs, i - |b|);
    }
  }

  // ------------------------------------------------ the completed prefix

  /** The new repairs keep every done node in the plan, keep the strategies that
      the done repairs ran, and repair no done node that had no repair. */
  ghost predicate Agrees(base: Plan, rs1: Repairs, rs2: Repairs, done: set<string>) {
    && (forall t :: t in done ==> Known(base, rs2, t))
    && (forall x :: x in rs1 && RecoverId(x) in done && x in rs2 ==> rs2[x] == rs1[x])
    && (forall x :: x in done && x !in rs1 ==> x !in rs2)
  }

  lemma {:induction false} BottomRepaired(base: Plan, rs: Repairs, x: string, t: string, rs1: Repairs)
    requires Plain(base) && InChain(RecoverId(x), rs1, t) && Known(base, rs, t)
    ensures x in rs
    decreases |t|
  {
    RecoverIdFacts(x);
    if t == RecoverId(x) {
      KnownRepair(base, rs, x);
    } else {
      ChainDown(RecoverId(x), rs1, t);
      assert RecoverId(t[|PREFIX|..]) == t;
      KnownRepair(base, rs, t[|PREFIX|..]);
      BottomRepaired(base, rs, x, t[|PREFIX|..], rs1);
    }
  }

  /** The done part of a block is the same under both repairs. */
  lemma {:induction false} BlockAgrees(base: Plan, m: PlanNode, n: PlanNode, rs1: Repairs, rs2: Repairs,
                                       done: set<string>, k: nat)
    requires Plain(base) && Agrees(base, rs1, rs2, done)
    requires m.(skill := n.skill) == n && (m.id in done ==> m == n)
    requires 1 <= k <= |Block(m, rs1)| && forall i :: 0 <= i < k ==> Block(m, rs1)[i].id in done
    ensures |Block(n, rs2)| == |Block(m, rs1)| && Block(n, rs2)[..k] == Block(m, rs1)[..k]
    decreases Longer(rs1, |m.id|)
  {
    var x := m.id;
    if x in rs1 {
      LongerShrinks(rs1, x);
      var p := RecoveryNode(x, rs1[x], m.after);
      var t := Block(p, rs1)[0].id;
      assert Block(m, rs1)[0].id == t;
      assert Has(Block(p, rs1), t);
      HasBlock(p, rs1, t);
      BottomRepaired(base, rs2, x, t, rs1);
      var q := RecoveryNode(x, rs2[x], n.after);
      var j := if k <= |Block(p, rs1)| then k else |Block(p, rs1)|;
      forall i | 0 <= i < j
        ensures Block(p, rs1)[i].id in done
      {
        assert Block(m, rs1)[i] == Block(p, rs1)[i];
      }
      BlockAgrees(base, p, q, rs1, rs2, done, j);
      if k > j {
        assert Block(m, rs1)[j].id == x;
        assert Block(p, rs1)[..j] == Block(p, rs1) && Block(q, rs2)[..j] == Block(q, rs2);
      } else {
        assert Block(m, rs1)[..k] == Block(p, rs1)[..k] && Block(n, rs2)[..k] == Block(q, rs2)[..k];
      }
    } else {
      assert Block(m, rs1)[0].id == x;
    }
  }

  lemma {:induction false} PrefixAgrees(full: Plan, base: Plan, rs1: Repairs, rs2: Repairs, done: set<string>, k: nat)
    requires Plain(full) && Agrees(full, rs1, rs2, done) && k <= |Repaired(base, rs1)|
    requires forall i :: 0 <= i < k ==> Repaired(base, rs1)[i].id in done
    ensures k <= |Repaired(base, rs2)| && Repaired(base, rs2)[..k] == Repaired(base, rs1)[..k]
  {
    if k > 0 {
      var n, b := base[0], Block(base[0], rs1);
      var rest1, rest2 := Repaired(base[1..], rs1), Repaired(base[1..], rs2);
      var j := if k <= |b| then k else |b|;
      forall i | 0 <= i < j
        ensures b[i].id in done
      {
        assert Repaired(base, rs1)[i] == b[i];
      }
      BlockAgrees(full, n, n, rs1, rs2, done, j);
      if k > |b| {
        assert b[..j] == b && Block(n, rs2)[..j] == Block(n, rs2);
        forall i | 0 <= i < k - |b|
          ensures rest1[i].id in done
        {
          assert Repaired(base, rs1)[i + |b|] == rest1[i];
        }
        PrefixAgrees(full, base[1..], rs1, rs2, done, k - |b|);
        SamePrefix(b, rest1, rest2, k);
      } else {
        assert (b + rest1)[..k] == b[..k] && (Block(n, rs2) + rest2)[..k] == Block(n, rs2)[..k];
      }
    }
  }

  lemma {:induction false} SamePrefix(b: Plan, rest1: Plan, rest2: Plan, k: nat)
    requires |b| <= k && k - |b| <= |rest1| && k - |b| <= |rest2| && rest2[..k - |b|] == rest1[..k - |b|]
    ensures (b + rest2)[..k] == (b + rest1)[..k]
  {
    assert (b + rest1)[..k] == b + rest1[..k - |b|];
    assert (b + rest2)[..k] == b + rest2[..k - |b|];
  }

  function DoneSet(plan: Plan, tasks: seq<Task>, k: nat): (r: set<string>)
    requires k <= |plan|
  {
    Elements(Ids(ToGraph(plan, tasks).nodes)[..k])
  }

  lemma {:induction false} DoneAt(plan: Plan, tasks: seq<Task>, k: nat, d: string) returns (i: nat)
    requires k <= |plan| && d in DoneSet(plan, tasks, k)
    ensures i < k && plan[i].id == d && ToGraph(plan, tasks).nodes[i].id == d
  {
    i :| 0 <= i < k && Ids(ToGraph(plan, tasks).nodes)[..k][i] == d;
  }

  lemma {:induction false} DoneHolds(plan: Plan, tasks: seq<Task>, k: nat, i: nat)
    requires i < k <= |plan|
    ensures plan[i].id in DoneSet(plan, tasks, k)
  {
    assert Ids(ToGraph(plan, tasks).nodes)[..k][i] == plan[i].id;
  }

  lemma {:induction false} AgreementIsMonotone(base: Plan, rs1: Repairs, rs2: Repairs, k: nat, tasks: seq<Task>)
    requires BasePlan(base) && k <= |Repaired(base, rs1)|
    requires Agrees(base, rs1, rs2, DoneSet(Repaired(base, rs1), tasks, k))
    ensures Monotone(ToGraph(Repaired(base, rs1), tasks), ToGraph(Repaired(base, rs2), tasks),
                     DoneSet(Repaired(base, rs1), tasks, k))
  {
    var p, q := Repaired(base, rs1), Repaired(base, rs2);
    var done := DoneSet(p, tasks, k);
    forall i | 0 <= i < k
      ensures p[i].id in done
    {
      DoneHolds(p, tasks, k, i);
    }
    PrefixAgrees(base, base, rs1, rs2, done, k);
    RepairedOrdered(base, rs1, {}, {});
    RepairedOrdered(base, rs2, {}, {});
    OrderedGraph(p, tasks);
    OrderedGraph(q, tasks);
    SamePrefixIsMonotone(p, q, k, tasks);
  }

  /** A node that both lists hold at position i is the same done node of both graphs. */
  lemma {:induction false} SharedNode(p: Plan, q: Plan, k: nat, i: nat, tasks: seq<Task>)
    requires Ordered(p, {}) && UniqueIds(ToGraph(p, tasks).nodes) && UniqueIds(ToGraph(q, tasks).nodes)
    requires i < k <= |p| && i < |q| && q[i] == p[i]
    ensures p[i].id in NodeMap(ToGraph(p, tasks).nodes) && p[i].id in NodeMap(ToGraph(q, tasks).nodes)
    ensures NodeMap(ToGraph(q, tasks).nodes)[p[i].id] == NodeMap(ToGraph(p, tasks).nodes)[p[i].id]
    ensures Elements(NodeMap(ToGraph(q, tasks).nodes)[p[i].id].after) <= DoneSet(p, tasks, k)
  {
    LegalRuns.NodeMapAt(ToGraph(p, tasks).nodes, i);
    LegalRuns.NodeMapAt(ToGraph(q, tasks).nodes, i);
    OrderedAt(p, {}, i);
    forall a | a in p[i].after
      ensures a in DoneSet(p, tasks, k)
    {
      var j :| 0 <= j < i && p[j].id == a;
      DoneHolds(p, tasks, k, j);
    }
  }

  lemma {:induction false} SharedDone(p: Plan, q: Plan, k: nat, tasks: seq<Task>, d: string)
    requires Ordered(p, {}) && UniqueIds(ToGraph(p, tasks).nodes) && UniqueIds(ToGraph(q, tasks).nodes)
    requires k <= |p| && k <= |q| && q[..k] == p[..k] && d in DoneSet(p, tasks, k)
    ensures d in NodeMap(ToGraph(p, tasks).nodes) && d in NodeMap(ToGraph(q, tasks).nodes)
    ensures NodeMap(ToGraph(q, tasks).nodes)[d] == NodeMap(ToGraph(p, tasks).nodes)[d]
    ensures Elements(NodeMap(ToGraph(q, tasks).nodes)[d].after) <= DoneSet(p, tasks, k)
  {
    var i := DoneAt(p, tasks, k, d);
    assert q[..k][i] == p[..k][i];
    SharedNode(p, q, k, i, tasks);
  }

  lemma {:induction false} SharedIds(p: Plan, q: Plan, k: nat, tasks: seq<Task>)
    requires UniqueIds(ToGraph(p, tasks).nodes)
    requires k <= |p| && k <= |q| && q[..k] == p[..k]
    ensures DoneIds(ToGraph(p, tasks).nodes, DoneSet(p, tasks, k)) == Prefix(ToGraph(q, tasks).nodes, k)
  {
    var prev, next := ToGraph(p, tasks).nodes, ToGraph(q, tasks).nodes;
    DoneOfLocated(prev, k, DoneSet(p, tasks, k));
    forall i | 0 <= i < k
      ensures Ids(prev)[..k][i] == Prefix(next, k)[i]
    {
      assert q[..k][i] == p[..k][i];
    }
  }

  lemma {:induction false} SamePrefixIsMonotone(p: Plan, q: Plan, k: nat, tasks: seq<Task>)
    requires Ordered(p, {}) && UniqueIds(ToGraph(p, tasks).nodes) && UniqueIds(ToGraph(q, tasks).nodes)
    requires k <= |p| && k <= |q| && q[..k] == p[..k]
    ensures Monotone(ToGraph(p, tasks), ToGraph(q, tasks), DoneSet(p, tasks, k))
  {
    SharedIds(p, q, k, tasks);
    forall d | d in DoneSet(p, tasks, k) {
      SharedDone(p, q, k, tasks, d);
    }
  }

  lemma {:induction false} MonotoneAt(prev: ExecutionGraph, next: ExecutionGraph, done: set<string>, d: string)
    requires Monotone(prev, next, done) && d in done
    ensures d in NodeMap(prev.nodes) && d in NodeMap(next.nodes)
    ensures NodeMap(next.nodes)[d].skill == NodeMap(prev.nodes)[d].skill
    ensures forall a :: a in NodeMap(next.nodes)[d].after ==> a in done
  {
    assert forall a :: a in NodeMap(next.nodes)[d].after ==> a in Elements(NodeMap(next.nodes)[d].after);
  }

  lemma {:induction false} RepairedEntry(base: Plan, rs: Repairs, tasks: seq<Task>, id: string)
    requires Plain(base) && id in NodeMap(ToGraph(Repaired(base, rs), tasks).nodes)
    ensures var n := NodeMap(ToGraph(Repaired(base, rs), tasks).nodes)[id];
            && (IsRecoverId(id) ==> id[|PREFIX|..] in rs && n.skill == rs[id[|PREFIX|..]])
            && (id in rs ==> RecoverId(id) in n.after)
    ensures Known(base, rs, id)
  {
    var i := LegalRuns.NodeOf(ToGraph(Repaired(base, rs), tasks).nodes, id);
    RepairedAt(base, rs, i);
    assert Repaired(base, rs)[i].id == id;
    RepairedHas(base, rs, id);
  }

  /** A done repair appears in a monotone answer with the strategy it ran. */
  lemma {:induction false} MonotoneKeepsRepair(base: Plan, rs1: Repairs, rs2: Repairs, done: set<string>,
                                               tasks: seq<Task>, x: string)
    requires Plain(base) && x in rs1 && RecoverId(x) in done
    requires Monotone(ToGraph(Repaired(base, rs1), tasks), ToGraph(Repaired(base, rs2), tasks), done)
    ensures x in rs2 && rs2[x] == rs1[x]
  {
    RecoverIdFacts(x);
    MonotoneAt(ToGraph(Repaired(base, rs1), tasks), ToGraph(Repaired(base, rs2), tasks), done, RecoverId(x));
    RepairedEntry(base, rs1, tasks, RecoverId(x));
    RepairedEntry(base, rs2, tasks, RecoverId(x));
  }

  /** And a monotone answer repairs no done node that had no repair. */
  lemma {:induction false} MonotoneAddsNoRepair(base: Plan, rs1: Repairs, rs2: Repairs, done: set<string>,
                                                tasks: seq<Task>, x: string)
    requires Plain(base) && x !in rs1 && x in done
    requires Monotone(ToGraph(Repaired(base, rs1), tasks), ToGraph(Repaired(base, rs2), tasks), done)
    ensures x !in rs2
  {
    MonotoneAt(ToGraph(Repaired(base, rs1), tasks), ToGraph(Repaired(base, rs2), tasks), done, x);
    RepairedEntry(base, rs2, tasks, x);
    if RecoverId(x) in done {
      MonotoneAt(ToGraph(Repaired(base, rs1), tasks), ToGraph(Repaired(base, rs2), tasks), done, RecoverId(x));
      RepairedEntry(base, rs1, tasks, RecoverId(x));
      RecoverIdFacts(x);
    }
  }

  lemma {:induction false} MonotoneAgrees(base: Plan, rs1: Repairs, rs2: Repairs, done: set<string>, tasks: seq<Task>)
    requires Plain(base)
    requires Monotone(ToGraph(Repaired(base, rs1), tasks), ToGraph(Repaired(base, rs2), tasks), done)
    ensures Agrees(base, rs1, rs2, done)
  {
    forall t | t in done
      ensures Known(base, rs2, t)
    {
      MonotoneAt(ToGraph(Repaired(base, rs1), tasks), ToGraph(Repaired(base, rs2), tasks), done, t);
      RepairedEntry(base, rs2, tasks, t);
    }
    forall x | x in rs1 && RecoverId(x) in done
      ensures x in rs2 && rs2[x] == rs1[x]
    {
      MonotoneKeepsRepair(base, rs1, rs2, done, tasks, x);
    }
    forall x | x !in rs1 && x in done
      ensures x !in rs2
    {
      MonotoneAddsNoRepair(base, rs1, rs2, done, tasks, x);
    }
  }

  /** The answer passes `replan_monotone` exactly when its repairs agree with the
      previous plan on what is done. */
  lemma {:induction false} AnswerMonotoneExactly(base: Plan, rs1: Repairs, rs2: Repairs, k: nat, tasks: seq<Task>)
    requires BasePlan(base) && k <= |Repaired(base, rs1)|
    ensures Monotone(ToGraph(Repaired(base, rs1), tasks), ToGraph(Repaired(base, rs2), tasks),
                     DoneSet(Repaired(base, rs1), tasks, k))
      <==> Agrees(base, rs1, rs2, DoneSet(Repaired(base, rs1), tasks, k))
  {
    if Agrees(base, rs1, rs2, DoneSet(Repaired(base, rs1), tasks, k)) {
      AgreementIsMonotone(base, rs1, rs2, k, tasks);
    } else if Monotone(ToGraph(Repaired(base, rs1), tasks), ToGraph(Repaired(base, rs2), tasks),
                       DoneSet(Repaired(base, rs1), tasks, k)) {
      MonotoneAgrees(base, rs1, rs2, DoneSet(Repaired(base, rs1), tasks, k), tasks);
    }
  }

  // --------------------------------------------------- successive answers

  /** What `done_specs` says of the first k nodes: the skill each done repair ran. */
  function Strategies(plan: Plan, k: nat): (r: map<string, string>)
    requires k <= |plan|
  {
    if k == 0 then map[]
    else
      var n, before := plan[k - 1], Strategies(plan, k - 1);
      if IsRecoverId(n.id) then before[n.id[|PREFIX|..] := n.skill] else before
  }

  /** What the task loop reports after the first k nodes of `plan` are done: their
      ids in any order, the strategies of the repairs among them, and the node at
      fault, which is the next one or, when it succeeded with a failed stage, done. */
  ghost predicate LoopReports(fault: Fault, plan: Plan, tasks: seq<Task>, k: nat) {
    && k <= |plan| && Elements(fault.nodesDone) == DoneSet(plan, tasks, k)
    && fault.recoveriesDone == Strategies(plan, k)
    && (fault.node in fault.nodesDone || (k < |plan| && fault.node == plan[k].id))
  }

  /** The planner would repair a done node that ran without a repair. */
  predicate Late(fault: Fault, tables: Tables) {
    Answer(fault, tables).Some? && fault.node in fault.nodesDone && RecoverId(fault.node) !in fault.nodesDone
  }

  /** The planner would repair a repair that is not done. */
  predicate Astray(fault: Fault, tables: Tables) {
    Answer(fault, tables).Some? && IsRecoverId(fault.node) && fault.node !in fault.nodesDone
  }

  /** Repairs of base nodes, with nonempty strategies. */
  ghost predicate Sound(base: Plan, rs: Repairs) {
    forall x :: x in rs ==> Has(base, x) && rs[x] != []
  }

  lemma {:induction false} StrategiesAre(base: Plan, rs: Repairs, k: nat)
    requires Plain(base) && k <= |Repaired(base, rs)|
    ensures var plan := Repaired(base, rs);
            && (forall x :: x in Strategies(plan, k) ==> x in rs && Strategies(plan, k)[x] == rs[x])
            && (forall i :: 0 <= i < k && IsRecoverId(plan[i].id) ==> plan[i].id[|PREFIX|..] in Strategies(plan, k))
  {
    if k > 0 {
      StrategiesAre(base, rs, k - 1);
      RepairedAt(base, rs, k - 1);
    }
  }

  lemma {:induction false} DoneIsKnown(base: Plan, rs: Repairs, tasks: seq<Task>, k: nat, t: string)
    requires Plain(base) && Sound(base, rs) && k <= |Repaired(base, rs)| && t in DoneSet(Repaired(base, rs), tasks, k)
    ensures if IsRecoverId(t) then t[|PREFIX|..] in rs && t[|PREFIX|..] in Strategies(Repaired(base, rs), k)
            else Has(base, t)
  {
    var i := DoneAt(Repaired(base, rs), tasks, k, t);
    assert Repaired(base, rs)[i].id == t;
    RepairedHas(base, rs, t);
    StrategiesAre(base, rs, k);
    RepairedAt(base, rs, i);
  }

  /** Of the repairs that the planner re-inserts, the reported ones. */
  lemma {:induction false} DoneRepairsReported(base: Plan, rs: Repairs, k: nat, fault: Fault, tables: Tables,
                                               tasks: seq<Task>)
    requires BasePlan(base) && Sound(base, rs) && LoopReports(fault, Repaired(base, rs), tasks, k)
    ensures var done := DoneRepairs(fault.nodesDone, fault, tables);
            && (forall x :: x in done <==> RecoverId(x) in DoneSet(Repaired(base, rs), tasks, k))
            && (forall x :: x in done ==> x in rs && done[x] == rs[x])
    ensures !AnyStray(base, fault.nodesDone, fault, tables)
  {
    var plan := Repaired(base, rs);
    DoneRepairsAre(fault.nodesDone, fault, tables);
    StrategiesAre(base, rs, k);
    forall x
      ensures RecoverId(x) in fault.nodesDone <==> RecoverId(x) in DoneSet(plan, tasks, k)
      ensures RecoverId(x) in fault.nodesDone ==> x in rs && Ran(fault, tables, x) == Some(rs[x]) && Has(base, x)
    {
      assert RecoverId(x) in fault.nodesDone <==> RecoverId(x) in Elements(fault.nodesDone);
      if RecoverId(x) in fault.nodesDone {
        RecoverIdFacts(x);
        DoneIsKnown(base, rs, tasks, k, RecoverId(x));
      }
    }
    forall i | 0 <= i < |fault.nodesDone|
      ensures !Stray(base, fault.nodesDone, fault, tables, i)
    {
      var nid := fault.nodesDone[i];
      if IsRecoverId(nid) {
        assert RecoverId(nid[|PREFIX|..]) == nid && nid in fault.nodesDone;
      }
    }
  }

  lemma {:induction false} ElementIn(s: seq<string>, x: string)
    ensures x in s <==> x in Elements(s)
  {
  }

  lemma {:induction false} DoneRepairAnchored(base: Plan, rs: Repairs, k: nat, fault: Fault, tables: Tables,
                                              tasks: seq<Task>)
    requires BasePlan(base) && Sound(base, rs) && LoopReports(fault, Repaired(base, rs), tasks, k)
    requires IsRecoverId(fault.node) && fault.node in fault.nodesDone
    ensures Ran(fault, tables, fault.node[|PREFIX|..]).Some?
  {
    ElementIn(fault.nodesDone, fault.node);
    DoneIsKnown(base, rs, tasks, k, fault.node);
    StrategiesAre(base, rs, k);
  }

  lemma {:induction false} FaultNodeIsBase(base: Plan, rs: Repairs, k: nat, fault: Fault, tasks: seq<Task>)
    requires Plain(base) && Sound(base, rs) && LoopReports(fault, Repaired(base, rs), tasks, k)
    requires !IsRecoverId(fault.node)
    ensures Has(base, fault.node)
  {
    if fault.node in fault.nodesDone {
      ElementIn(fault.nodesDone, fault.node);
      DoneIsKnown(base, rs, tasks, k, fault.node);
    } else {
      assert Repaired(base, rs)[k].id == fault.node;
      RepairedHas(base, rs, fault.node);
    }
  }

  /** The planner finds no place for its repairs exactly when it is astray. */
  lemma {:induction false} RaisesAstray(base: Plan, rs: Repairs, k: nat, fault: Fault, tables: Tables,
                                        tasks: seq<Task>)
    requires BasePlan(base) && Sound(base, rs) && LoopReports(fault, Repaired(base, rs), tasks, k)
    ensures Unanswerable(base, fault, tables) <==> Astray(fault, tables)
  {
    var x := fault.node;
    assert !AnyStray(base, fault.nodesDone, fault, tables) by {
      DoneRepairsReported(base, rs, k, fault, tables, tasks);
    }
    if !IsRecoverId(x) {
      FaultNodeIsBase(base, rs, k, fault, tasks);
    } else {
      assert !Has(base, x);
      if x in fault.nodesDone {
        DoneRepairAnchored(base, rs, k, fault, tables, tasks);
      }
    }
  }

  /** Repairs carry over: those of done nodes as they ran, and one of a base node
      that is not done. */
  ghost predicate CarriesOver(base: Plan, rs: Repairs, next: Repairs, done: set<string>) {
    && (forall x :: RecoverId(x) in done ==> x in next)
    && (forall x :: x in next && RecoverId(x) in done ==> x in rs && next[x] == rs[x])
    && (forall x :: x in next && RecoverId(x) !in done ==> Has(base, x) && x !in done && next[x] != [])
  }

  lemma {:induction false} AnsweredIsFresh(base: Plan, rs: Repairs, k: nat, fault: Fault, tables: Tables,
                                           tasks: seq<Task>)
    requires Plain(base) && Sound(base, rs) && LoopReports(fault, Repaired(base, rs), tasks, k)
    requires !Astray(fault, tables) && !Late(fault, tables) && Answer(fault, tables).Some?
    requires RecoverId(fault.node) !in DoneSet(Repaired(base, rs), tasks, k)
    ensures Has(base, fault.node) && fault.node !in DoneSet(Repaired(base, rs), tasks, k)
  {
    ElementIn(fault.nodesDone, fault.node);
    ElementIn(fault.nodesDone, RecoverId(fault.node));
    FaultNodeIsBase(base, rs, k, fault, tasks);
  }

  lemma {:induction false} ReportCarriesOver(base: Plan, rs: Repairs, k: nat, fault: Fault, tables: Tables,
                                             tasks: seq<Task>)
    requires BasePlan(base) && Sound(base, rs) && LoopReports(fault, Repaired(base, rs), tasks, k)
    requires !Astray(fault, tables) && !Late(fault, tables)
    ensures CarriesOver(base, rs, NewRepairs(fault, tables), DoneSet(Repaired(base, rs), tasks, k))
  {
    DoneRepairsReported(base, rs, k, fault, tables, tasks);
    if Answer(fault, tables).Some? && RecoverId(fault.node) !in DoneSet(Repaired(base, rs), tasks, k) {
      AnsweredIsFresh(base, rs, k, fault, tables, tasks);
    }
  }

  lemma {:induction false} CarriedAgrees(base: Plan, rs: Repairs, k: nat, next: Repairs, tasks: seq<Task>)
    requires Plain(base) && Sound(base, rs) && k <= |Repaired(base, rs)|
    requires CarriesOver(base, rs, next, DoneSet(Repaired(base, rs), tasks, k))
    ensures Sound(base, next) && Agrees(base, rs, next, DoneSet(Repaired(base, rs), tasks, k))
  {
    var done := DoneSet(Repaired(base, rs), tasks, k);
    forall t | t in done
      ensures Known(base, next, t)
    {
      DoneIsKnown(base, rs, tasks, k, t);
      if IsRecoverId(t) {
        assert RecoverId(t[|PREFIX|..]) == t;
      }
    }
  }

  /** A done node that has a repair has it done. */
  lemma {:induction false} DoneBehindRepair(base: Plan, rs: Repairs, k: nat, tasks: seq<Task>, x: string)
    requires BasePlan(base) && k <= |Repaired(base, rs)|
    requires x in DoneSet(Repaired(base, rs), tasks, k) && x in rs
    ensures RecoverId(x) in DoneSet(Repaired(base, rs), tasks, k)
  {
    var plan := Repaired(base, rs);
    var i := DoneAt(plan, tasks, k, x);
    RepairedAt(base, rs, i);
    RepairedOrdered(base, rs, {}, {});
    OrderedAt(plan, {}, i);
    var j :| 0 <= j < i && plan[j].id == RecoverId(x);
    DoneHolds(plan, tasks, k, j);
  }

  lemma {:induction false} LateDisagrees(base: Plan, rs: Repairs, k: nat, fault: Fault, tables: Tables,
                                         tasks: seq<Task>)
    requires BasePlan(base) && Sound(base, rs) && LoopReports(fault, Repaired(base, rs), tasks, k)
    requires Late(fault, tables)
    ensures !Agrees(base, rs, NewRepairs(fault, tables), DoneSet(Repaired(base, rs), tasks, k))
  {
    DoneRepairsReported(base, rs, k, fault, tables, tasks);
    ElementIn(fault.nodesDone, fault.node);
    ElementIn(fault.nodesDone, RecoverId(fault.node));
    if fault.node in rs {
      DoneBehindRepair(base, rs, k, tasks, fault.node);
    }
  }

  /** `next` passes `replan_monotone` against `plan`, whose first k nodes are done. */
  predicate Follows(plan: Plan, next: Plan, tasks: seq<Task>, k: nat)
    requires k <= |plan|
  {
    Monotone(ToGraph(plan, tasks), ToGraph(next, tasks), DoneSet(plan, tasks, k))
  }

  /** On a report of the loop the planner raises exactly when it is astray;
      otherwise its answer is again the repaired base plan, which passes
      `replan_monotone` exactly when it does not come late. */
  lemma {:induction false} NextAnswerExactly(base: Plan, rs: Repairs, k: nat, fault: Fault, tables: Tables,
                                             tasks: seq<Task>)
    requires BasePlan(base) && Sound(base, rs) && LoopReports(fault, Repaired(base, rs), tasks, k)
    ensures Recovered(base, fault, tables) ==
      if Astray(fault, tables) then None else Some(Repaired(base, NewRepairs(fault, tables)))
    ensures !Astray(fault, tables) ==>
      (Follows(Repaired(base, rs), Repaired(base, NewRepairs(fault, tables)), tasks, k) <==> !Late(fault, tables))
    ensures !Astray(fault, tables) && !Late(fault, tables) ==> Sound(base, NewRepairs(fault, tables))
  {
    RaisesAstray(base, rs, k, fault, tables, tasks);
    AnswerRebuilds(base, fault, tables);
    if !Astray(fault, tables) {
      AnswerMonotoneExactly(base, rs, NewRepairs(fault, tables), k, tasks);
      if Late(fault, tables) {
        LateDisagrees(base, rs, k, fault, tables, tasks);
      } else {
        ReportCarriesOver(base, rs, k, fault, tables, tasks);
        CarriedAgrees(base, rs, k, NewRepairs(fault, tables), tasks);
      }
    }
  }

  /** The fault that a refused answer leaves behind: no node, and nothing is said to be done. */
  const FORGOTTEN := Fault("invalid_plan", "", None, [], map[])

  /** Its answer is the bare base plan, which passes exactly when no repair is done. */
  lemma {:induction false} ForgottenExactly(base: Plan, rs: Repairs, k: nat, tables: Tables, tasks: seq<Task>)
    requires BasePlan(base) && Sound(base, rs) && k <= |Repaired(base, rs)|
    ensures Recovered(base, FORGOTTEN, tables) == Some(base)
    ensures Follows(Repaired(base, rs), base, tasks, k) <==>
      forall d :: d in DoneSet(Repaired(base, rs), tasks, k) ==> !IsRecoverId(d)
  {
    NoRepairs(base);
    AnswerMonotoneExactly(base, rs, map[], k, tasks);
    forall d | d in DoneSet(Repaired(base, rs), tasks, k)
      ensures Known(base, map[], d) <==> !IsRecoverId(d)
    {
      DoneIsKnown(base, rs, tasks, k, d);
    }
  }

  lemma {:induction false} OneRepair(n: PlanNode, rs: Repairs)
    requires rs.Keys == {n.id}
    ensures Repaired([n], rs) == [RecoveryNode(n.id, rs[n.id], n.after), n.(after := n.after + [RecoverId(n.id)])]
  {
    RecoverIdFacts(n.id);
    assert [n][1..] == [];
    assert Block(RecoveryNode(n.id, rs[n.id], n.after), rs) == [RecoveryNode(n.id, rs[n.id], n.after)];
  }

  /** Without `recoveries_done`, a repair that a mode override chose is rebuilt
      with the stage table's strategy and the replan is refused. */
  lemma {:induction false} BareNodesDoneIsRefused() returns (base: Plan, rs: Repairs, fault: Fault, tables: Tables)
    ensures BasePlan(base) && |Repaired(base, rs)| >= 1
    ensures Elements(fault.nodesDone) == DoneSet(Repaired(base, rs), [], 1)
    ensures fault.recoveriesDone == map[] && fault.kind != "no_progress"
    ensures Recovered(base, fault, tables) == Some(Repaired(base, NewRepairs(fault, tables)))
    ensures !Monotone(ToGraph(Repaired(base, rs), []), ToGraph(Repaired(base, NewRepairs(fault, tables)), []),
                      DoneSet(Repaired(base, rs), [], 1))
  {
    var n := PlanNode("pick", "pick", map[], [], None, None, None);
    base := [n];
    rs := map["pick" := "regrasp"];
    fault := Fault("node_failure", "pick", None, [RecoverId("pick")], map[]);
    tables := Tables(map["pick" := "reapproach"], map[]);
    OneRepair(n, rs);
    RecoverIdFacts("pick");
    assert Has(base, "pick");
    assert StageOf("pick") == "pick" by {
      assert StageOf("k") == "k" && StageOf("ck") == "ck" && StageOf("ick") == "ick";
    }
    assert Ran(fault, tables, "pick") == Some("reapproach");
    assert fault.nodesDone[..0] == [];
    assert NewRepairs(fault, tables) == map["pick" := "reapproach"];
    AnswerRebuilds(base, fault, tables);
    var done := DoneSet(Repaired(base, rs), [], 1);
    DoneHolds(Repaired(base, rs), [], 1, 0);
    assert done == {RecoverId("pick")} == Elements(fault.nodesDone);
    AnswerMonotoneExactly(base, rs, NewRepairs(fault, tables), 1, []);
  }
}
