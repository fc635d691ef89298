/** `insert_recovery` and `recover_plan` of harness/protocol.py: the stateless
    planner that rebuilds its plan from the base plan at every fault. */
module Recovery {
  import opened Options
  import Lists
  import opened Digraph
  import opened Legality
  import opened Replan

  /** A node of a planner-format plan; absent keys are None. */
  datatype PlanNode = PlanNode(id: string, skill: string, args: map<string, Value>, after: seq<string>,
                               task: Option<string>, executor: Option<string>, kind: Option<string>)

  type Plan = seq<PlanNode>

  const PREFIX: string := "recover-"

  function RecoverId(x: string): (r: string) { PREFIX + x }

  predicate IsRecoverId(nid: string) { PREFIX <= nid }

  lemma {:induction false} RecoverIdFacts(x: string)
    ensures IsRecoverId(RecoverId(x)) && RecoverId(x)[|PREFIX|..] == x && RecoverId(x) != x
    ensures RecoverId(x) == "recover-" + x
  {
    assert |RecoverId(x)| == |PREFIX| + |x|;
  }

  function RecoveryNode(x: string, strategy: string, after: seq<string>): (r: PlanNode) {
    PlanNode(RecoverId(x), strategy, map[], after, None, None, Some("recovery"))
  }

  // --------------------------------------------------------- insert_recovery

  /** What the loop body appends for one node. */
  function InsertAt(n: PlanNode, x: string, strategy: string): (r: Plan) {
    if n.id == x && RecoverId(x) !in n.after
    then [RecoveryNode(x, strategy, n.after), n.(after := n.after + [RecoverId(x)])]
    else [n]
  }

  function Insert(plan: Plan, x: string, strategy: string): (r: Plan) {
    if plan == [] then [] else InsertAt(plan[0], x, strategy) + Insert(plan[1..], x, strategy)
  }

  predicate Has(plan: Plan, x: string) {
    exists i :: 0 <= i < |plan| && plan[i].id == x
  }

  lemma {:induction false} InsertSnoc(plan: Plan, n: PlanNode, x: string, strategy: string)
    ensures Insert(plan + [n], x, strategy) == Insert(plan, x, strategy) + InsertAt(n, x, strategy)
  {
    if plan == [] {
      assert (plan + [n])[1..] == [];
    } else {
      assert (plan + [n])[1..] == plan[1..] + [n];
      InsertSnoc(plan[1..], n, x, strategy);
    }
  }

  /** `insert_recovery`; None stands for the KeyError. */
  method InsertRecovery(plan: Plan, x: string, strategy: string) returns (r: Option<Plan>)
    ensures r == if Has(plan, x) then Some(Insert(plan, x, strategy)) else None
  {
    var nodes, found := [], false;
    for i := 0 to |plan|
      invariant nodes == Insert(plan[..i], x, strategy)
      invariant found <==> Has(plan[..i], x)
    {
      var n := plan[i];
      InsertSnoc(plan[..i], n, x, strategy);
      assert plan[..i + 1] == plan[..i] + [n];
      if n.id == x {
        found := true;
        assert plan[..i + 1][i].id == x;
        if RecoverId(x) !in n.after {
          nodes := nodes + [RecoveryNode(x, strategy, n.after)];
          n := n.(after := n.after + [RecoverId(x)]);
        }
      }
      nodes := nodes + [n];
    }
    assert plan[..|plan|] == plan;
    r := if found then Some(nodes) else None;
  }

  lemma {:induction false} InsertConcat(a: Plan, b: Plan, x: string, s: string)
    ensures Insert(a + b, x, s) == Insert(a, x, s) + Insert(b, x, s)
  {
    if a == [] {
      assert a + b == b;
    } else {
      assert (a + b)[1..] == a[1..] + b;
      InsertConcat(a[1..], b, x, s);
    }
  }

  /** Idempotent, whatever strategy the second call names. */
  lemma {:induction false} InsertIdempotent(plan: Plan, x: string, s: string, t: string)
    ensures Insert(Insert(plan, x, s), x, t) == Insert(plan, x, s)
  {
    if plan != [] {
      InsertIdempotent(plan[1..], x, s, t);
      InsertConcat(InsertAt(plan[0], x, s), Insert(plan[1..], x, s), x, t);
      InsertTwiceAt(plan[0], x, s, t);
    }
  }

  lemma {:induction false} InsertOne(n: PlanNode, x: string, s: string)
    ensures Insert([n], x, s) == InsertAt(n, x, s)
  {
    assert Insert([n][1..], x, s) == [];
  }

  lemma {:induction false} InsertTwo(a: PlanNode, b: PlanNode, x: string, s: string)
    ensures Insert([a, b], x, s) == InsertAt(a, x, s) + InsertAt(b, x, s)
  {
    assert [a, b][1..] == [b];
    InsertOne(b, x, s);
  }

  lemma {:induction false} InsertTwiceAt(n: PlanNode, x: string, s: string, t: string)
    ensures Insert(InsertAt(n, x, s), x, t) == InsertAt(n, x, s)
  {
    RecoverIdFacts(x);
    if n.id == x && RecoverId(x) !in n.after {
      InsertTwo(InsertAt(n, x, s)[0], InsertAt(n, x, s)[1], x, t);
    } else {
      InsertOne(n, x, t);
    }
  }

  /** Recoveries of different nodes, neither the repair of the other, commute. */
  lemma {:induction false} InsertCommutes(plan: Plan, x: string, s: string, y: string, t: string)
    requires x != y && x != RecoverId(y) && y != RecoverId(x)
    ensures Insert(Insert(plan, x, s), y, t) == Insert(Insert(plan, y, t), x, s)
  {
    if plan != [] {
      InsertCommutes(plan[1..], x, s, y, t);
      InsertConcat(InsertAt(plan[0], x, s), Insert(plan[1..], x, s), y, t);
      InsertConcat(InsertAt(plan[0], y, t), Insert(plan[1..], y, t), x, s);
      CommuteAt(plan[0], x, s, y, t);
    }
  }

  lemma {:induction false} CommuteAt(n: PlanNode, x: string, s: string, y: string, t: string)
    requires x != y && x != RecoverId(y) && y != RecoverId(x)
    ensures Insert(InsertAt(n, x, s), y, t) == Insert(InsertAt(n, y, t), x, s)
  {
    InsertOne(n, x, s);
    InsertOne(n, y, t);
    if n.id == x && RecoverId(x) !in n.after {
      InsertTwo(InsertAt(n, x, s)[0], InsertAt(n, x, s)[1], y, t);
    } else if n.id == y && RecoverId(y) !in n.after {
      InsertTwo(InsertAt(n, y, t)[0], InsertAt(n, y, t)[1], x, s);
    }
  }

  // ------------------------------------------------ plans rebuilt from a base

  type Repairs = map<string, string>

  /** The repaired ids of at least this length; repairs of repairs are longer. */
  function Longer(rs: Repairs, n: nat): (r: set<string>) {
    set x | x in rs && |x| >= n
  }

  lemma {:induction false} LongerShrinks(rs: Repairs, x: string)
    requires x in rs
    ensures Longer(rs, |RecoverId(x)|) < Longer(rs, |x|)
  {
    assert |RecoverId(x)| == |PREFIX| + |x|;
    assert x in Longer(rs, |x|) && x !in Longer(rs, |RecoverId(x)|);
  }

  /** A node behind its repair, which may stand behind its own. */
  function Block(n: PlanNode, rs: Repairs): (r: Plan)
    ensures |r| >= 1
    decreases Longer(rs, |n.id|)
  {
    if n.id in rs then
      LongerShrinks(rs, n.id);
      Block(RecoveryNode(n.id, rs[n.id], n.after), rs) + [n.(after := n.after + [RecoverId(n.id)])]
    else [n]
  }

  /** The base plan with a repair in front of every node that `rs` names. */
  function Repaired(base: Plan, rs: Repairs): (r: Plan) {
    if base == [] then [] else Block(base[0], rs) + Repaired(base[1..], rs)
  }

  function Add(rs: Repairs, x: string, s: string): (r: Repairs) {
    if x in rs then rs else rs[x := s]
  }

  /** Ids are fresh and every `after` names an earlier id, given the ids seen before. */
  predicate Ordered(plan: Plan, seen: set<string>) {
    plan == [] || (&& Elements(plan[0].after) <= seen && plan[0].id !in seen
                   && Ordered(plan[1..], seen + {plan[0].id}))
  }

  predicate NoRepairsIn(n: PlanNode) {
    !IsRecoverId(n.id) && forall a :: a in n.after ==> !IsRecoverId(a)
  }

  predicate Plain(base: Plan) {
    forall i :: 0 <= i < |base| ==> NoRepairsIn(base[i])
  }

  /** A base plan: unique ids, ordered, and no repair in it. */
  predicate BasePlan(base: Plan) {
    Ordered(base, {}) && Plain(base)
  }

  /** `id` is `x`, its repair, the repair of that, and so on as far as `rs` goes. */
  predicate InChain(x: string, rs: Repairs, id: string)
    decreases Longer(rs, |x|)
  {
    id == x || (x in rs && (LongerShrinks(rs, x); InChain(RecoverId(x), rs, id)))
  }

  /** The plan repaired with `rs` has a node of this id. */
  predicate Known(base: Plan, rs: Repairs, id: string)
    decreases |id|
  {
    Has(base, id) || (IsRecoverId(id) && id[|PREFIX|..] in rs && Known(base, rs, id[|PREFIX|..]))
  }

  lemma {:induction false} ChainUp(x: string, rs: Repairs, id: string)
    requires InChain(x, rs, id) && id in rs
    ensures InChain(x, rs, RecoverId(id))
    decreases Longer(rs, |x|)
  {
    if id != x {
      LongerShrinks(rs, x);
      ChainUp(RecoverId(x), rs, id);
    }
  }

  lemma {:induction false} ChainDown(x: string, rs: Repairs, id: string)
    requires InChain(x, rs, id) && id != x
    ensures IsRecoverId(id) && id[|PREFIX|..] in rs && InChain(x, rs, id[|PREFIX|..])
    decreases Longer(rs, |x|)
  {
    LongerShrinks(rs, x);
    RecoverIdFacts(x);
    if id != RecoverId(x) {
      ChainDown(RecoverId(x), rs, id);
    }
  }

  lemma {:induction false} HasConcat(a: Plan, b: Plan, id: string)
    ensures Has(a + b, id) <==> Has(a, id) || Has(b, id)
  {
    if Has(a, id) {
      var i :| 0 <= i < |a| && a[i].id == id;
      assert (a + b)[i].id == id;
    }
    if Has(b, id) {
      var i :| 0 <= i < |b| && b[i].id == id;
      assert (a + b)[|a| + i].id == id;
    }
  }

  lemma {:induction false} HasBlock(n: PlanNode, rs: Repairs, id: string)
    ensures Has(Block(n, rs), id) <==> InChain(n.id, rs, id)
    decreases Longer(rs, |n.id|)
  {
    if n.id in rs {
      LongerShrinks(rs, n.id);
      var r := RecoveryNode(n.id, rs[n.id], n.after);
      var last := n.(after := n.after + [RecoverId(n.id)]);
      HasBlock(r, rs, id);
      HasConcat(Block(r, rs), [last], id);
      assert [last][0].id == n.id;
    } else {
      assert [n][0].id == n.id;
    }
  }

  predicate InSomeChain(base: Plan, rs: Repairs, id: string) {
    exists i :: 0 <= i < |base| && InChain(base[i].id, rs, id)
  }

  lemma {:induction false} HasSomeChain(base: Plan, rs: Repairs, id: string)
    ensures Has(Repaired(base, rs), id) <==> InSomeChain(base, rs, id)
  {
    if base != [] {
      HasBlock(base[0], rs, id);
      HasSomeChain(base[1..], rs, id);
      HasConcat(Block(base[0], rs), Repaired(base[1..], rs), id);
      if InSomeChain(base[1..], rs, id) {
        var i :| 0 <= i < |base| - 1 && InChain(base[1..][i].id, rs, id);
        assert InChain(base[i + 1].id, rs, id);
      }
      if InSomeChain(base, rs, id) && !InChain(base[0].id, rs, id) {
        var i :| 0 <= i < |base| && InChain(base[i].id, rs, id);
        assert InChain(base[1..][i - 1].id, rs, id);
      }
    }
  }

  lemma {:induction false} ChainIsKnown(base: Plan, rs: Repairs, id: string, i: nat)
    requires i < |base| && InChain(base[i].id, rs, id)
    ensures Known(base, rs, id)
    decreases |id|
  {
    if id != base[i].id {
      ChainDown(base[i].id, rs, id);
      ChainIsKnown(base, rs, id[|PREFIX|..], i);
    }
  }

  lemma {:induction false} KnownIsChain(base: Plan, rs: Repairs, id: string) returns (i: nat)
    requires Known(base, rs, id)
    ensures i < |base| && InChain(base[i].id, rs, id)
    decreases |id|
  {
    if Has(base, id) {
      i :| 0 <= i < |base| && base[i].id == id;
    } else {
      i := KnownIsChain(base, rs, id[|PREFIX|..]);
      ChainUp(base[i].id, rs, id[|PREFIX|..]);
      assert RecoverId(id[|PREFIX|..]) == id;
    }
  }

  lemma {:induction false} RepairedHas(base: Plan, rs: Repairs, id: string)
    ensures Has(Repaired(base, rs), id) <==> Known(base, rs, id)
  {
    HasSomeChain(base, rs, id);
    if Known(base, rs, id) {
      var i := KnownIsChain(base, rs, id);
    }
    if InSomeChain(base, rs, id) {
      var i :| 0 <= i < |base| && InChain(base[i].id, rs, id);
      ChainIsKnown(base, rs, id, i);
    }
  }

  lemma {:induction false} InsertIntoBlock(n: PlanNode, rs: Repairs, x: string, s: string)
    requires (forall a :: a in n.after ==> !IsRecoverId(a)) && (x !in rs ==> RecoverId(x) !in rs)
    ensures Insert(Block(n, rs), x, s) == Block(n, Add(rs, x, s))
    decreases Longer(rs, |n.id|)
  {
    RecoverIdFacts(x);
    RecoverIdFacts(n.id);
    if n.id in rs {
      LongerShrinks(rs, n.id);
      var r := RecoveryNode(n.id, rs[n.id], n.after);
      var last := n.(after := n.after + [RecoverId(n.id)]);
      InsertIntoBlock(r, rs, x, s);
      InsertConcat(Block(r, rs), [last], x, s);
      InsertOne(last, x, s);
    } else {
      InsertOne(n, x, s);
      if n.id == x {
        var r := RecoveryNode(x, s, n.after);
        assert Block(r, rs[x := s]) == [r];
      }
    }
  }

  /** Inserting into a rebuilt plan is rebuilding with one repair more. */
  lemma {:induction false} InsertIntoRepaired(base: Plan, rs: Repairs, x: string, s: string)
    requires Plain(base) && (x !in rs ==> RecoverId(x) !in rs)
    ensures Insert(Repaired(base, rs), x, s) == Repaired(base, Add(rs, x, s))
  {
    if base != [] {
      InsertIntoRepaired(base[1..], rs, x, s);
      InsertConcat(Block(base[0], rs), Repaired(base[1..], rs), x, s);
      InsertIntoBlock(base[0], rs, x, s);
    }
  }

  // ------------------------------------------------------------ recover_plan

  datatype Fault = Fault(kind: string, node: string, failureMode: Option<string>, nodesDone: seq<string>,
                         recoveriesDone: map<string, string>)

  datatype Tables = Tables(byStage: map<string, string>, byMode: map<string, map<string, string>>)

  /** `x.split("-")[0]`. */
  function StageOf(x: string): (r: string)
    ensures r <= x && '-' !in r
  {
    if x == [] || x[0] == '-' then [] else [x[0]] + StageOf(x[1..])
  }

  /** A table entry that is there and not empty. */
  function Lookup(m: map<string, string>, k: string): (r: Option<string>) {
    if k in m && m[k] != [] then Some(m[k]) else None
  }

  function Or(a: Option<string>, b: Option<string>): (r: Option<string>) {
    if a.Some? then a else b
  }

  /** The strategy a done repair of `x` is re-inserted with. */
  function Ran(fault: Fault, tables: Tables, x: string): (r: Option<string>) {
    Or(Lookup(fault.recoveriesDone, x), Lookup(tables.byStage, StageOf(x)))
  }

  /** The strategy that answers a `no_progress` fault. */
  function Answer(fault: Fault, tables: Tables): (r: Option<string>) {
    var stage := StageOf(fault.node);
    var mode := if fault.failureMode.Some? && fault.failureMode.value in tables.byMode
                then Lookup(tables.byMode[fault.failureMode.value], stage) else None;
    if fault.kind != "no_progress" then None else Or(mode, Lookup(tables.byStage, stage))
  }

  function InsertIf(plan: Option<Plan>, x: string, strategy: Option<string>): (r: Option<Plan>) {
    if plan.None? || strategy.None? then plan
    else if Has(plan.value, x) then Some(Insert(plan.value, x, strategy.value))
    else None
  }

  function ReinsertDone(plan: Plan, done: seq<string>, fault: Fault, tables: Tables): (r: Option<Plan>) {
    if done == [] then Some(plan)
    else
      var nid := done[|done| - 1];
      var before := ReinsertDone(plan, done[..|done| - 1], fault, tables);
      if IsRecoverId(nid) then InsertIf(before, nid[|PREFIX|..], Ran(fault, tables, nid[|PREFIX|..])) else before
  }

  function Recovered(plan: Plan, fault: Fault, tables: Tables): (r: Option<Plan>) {
    InsertIf(ReinsertDone(plan, fault.nodesDone, fault, tables), fault.node, Answer(fault, tables))
  }

  // ------------------------------------- the answer is the base plan, repaired

  function DoneRepairs(done: seq<string>, fault: Fault, tables: Tables): (r: Repairs) {
    if done == [] then map[]
    else
      var nid := done[|done| - 1];
      var rs := DoneRepairs(done[..|done| - 1], fault, tables);
      if IsRecoverId(nid) && Ran(fault, tables, nid[|PREFIX|..]).Some?
      then rs[nid[|PREFIX|..] := Ran(fault, tables, nid[|PREFIX|..]).value] else rs
  }

  /** The repairs of the new plan: the done ones and the answer to the fault. */
  function NewRepairs(fault: Fault, tables: Tables): (r: Repairs) {
    var rs := DoneRepairs(fault.nodesDone, fault, tables);
    if Answer(fault, tables).Some? && fault.node !in rs then rs[fault.node := Answer(fault, tables).value] else rs
  }

  /** The order of `nodes_done`, and repetitions in it, do not matter. */
  lemma {:induction false} DoneRepairsAre(done: seq<string>, fault: Fault, tables: Tables)
    ensures forall x :: x in DoneRepairs(done, fault, tables) <==> RecoverId(x) in done && Ran(fault, tables, x).Some?
    ensures forall x :: x in DoneRepairs(done, fault, tables) ==>
      DoneRepairs(done, fault, tables)[x] == Ran(fault, tables, x).value
  {
    if done != [] {
      var nid := done[|done| - 1];
      DoneRepairsAre(done[..|done| - 1], fault, tables);
      assert done == done[..|done| - 1] + [nid];
      forall x {
        RecoverIdFacts(x);
      }
      assert IsRecoverId(nid) ==> nid == RecoverId(nid[|PREFIX|..]);
    }
  }

  // Which strategy it is.

  lemma {:induction false} StageBefore(w: string, tail: string)
    requires '-' !in w && (tail == [] || tail[0] == '-')
    ensures StageOf(w + tail) == w
  {
    if w == [] {
      assert w + tail == tail;
    } else {
      Lists.HeadFirst(w, tail);
      StageBefore(w[1..], tail);
    }
  }

  /** The stage word of an id is what stands before its first dash. */
  lemma {:induction false} StageWord(w: string, rest: string)
    requires '-' !in w
    ensures StageOf(w) == w && StageOf(w + "-" + rest) == w
  {
    StageBefore(w, []);
    StageBefore(w, "-" + rest);
    assert w + [] == w && w + ("-" + rest) == w + "-" + rest;
  }

  /** The id of a node of the stage `w`. */
  predicate OfStage(id: string, w: string) {
    '-' !in w && (id == w || (|id| > |w| && id[..|w|] == w && id[|w|] == '-'))
  }

  lemma {:induction false} OfStageIs(id: string, w: string)
    requires OfStage(id, w)
    ensures StageOf(id) == w
  {
    StageWord(w, if id == w then [] else id[|w| + 1..]);
    if id != w {
      assert id == w + "-" + id[|w| + 1..];
    }
  }

  /** A nonempty entry of the override table of the reported failure mode. */
  predicate Overrides(fault: Fault, tables: Tables, w: string) {
    && fault.failureMode.Some? && fault.failureMode.value in tables.byMode
    && w in tables.byMode[fault.failureMode.value] && tables.byMode[fault.failureMode.value][w] != []
  }

  /** A `no_progress` fault at a node of stage `w` is answered with the override for its
      failure mode, or else with the entry of the stage table, or else not at all. */
  lemma {:induction false} AnswerIs(fault: Fault, tables: Tables, w: string)
    requires OfStage(fault.node, w)
    ensures fault.kind != "no_progress" ==> Answer(fault, tables) == None
    ensures fault.kind == "no_progress" ==>
      Answer(fault, tables) == if Overrides(fault, tables, w) then Some(tables.byMode[fault.failureMode.value][w])
                               else if w in tables.byStage && tables.byStage[w] != [] then Some(tables.byStage[w])
                               else None
  {
    OfStageIs(fault.node, w);
  }

  /** A done repair is re-inserted with the strategy that it is reported to have run,
      or else with the entry of the stage table, or else not at all. */
  lemma {:induction false} RanIs(fault: Fault, tables: Tables, x: string, w: string)
    requires OfStage(x, w)
    ensures Ran(fault, tables, x) ==
      if x in fault.recoveriesDone && fault.recoveriesDone[x] != [] then Some(fault.recoveriesDone[x])
      else if w in tables.byStage && tables.byStage[w] != [] then Some(tables.byStage[w])
      else None
  {
    OfStageIs(x, w);
  }

  /** So the new plan repairs the node of a `no_progress` fault, unless its repair is
      done, with that strategy. */
  lemma {:induction false} NewStrategy(fault: Fault, tables: Tables, w: string)
    requires OfStage(fault.node, w) && fault.kind == "no_progress" && RecoverId(fault.node) !in fault.nodesDone
    ensures Overrides(fault, tables, w) ==>
      fault.node in NewRepairs(fault, tables)
      && NewRepairs(fault, tables)[fault.node] == tables.byMode[fault.failureMode.value][w]
    ensures !Overrides(fault, tables, w) && w in tables.byStage && tables.byStage[w] != [] ==>
      fault.node in NewRepairs(fault, tables) && NewRepairs(fault, tables)[fault.node] == tables.byStage[w]
    ensures !Overrides(fault, tables, w) && !(w in tables.byStage && tables.byStage[w] != []) ==>
      fault.node !in NewRepairs(fault, tables)
  {
    AnswerIs(fault, tables, w);
    DoneRepairsAre(fault.nodesDone, fault, tables);
  }

  /** With nothing done, the answer is the base plan with one repair inserted, or as it is. */
  lemma {:induction false} FirstAnswer(base: Plan, fault: Fault, tables: Tables, w: string)
    requires OfStage(fault.node, w) && fault.kind == "no_progress" && fault.nodesDone == [] && Has(base, fault.node)
    ensures Recovered(base, fault, tables) == Some(
      if Overrides(fault, tables, w) then Insert(base, fault.node, tables.byMode[fault.failureMode.value][w])
      else if w in tables.byStage && tables.byStage[w] != [] then Insert(base, fault.node, tables.byStage[w])
      else base)
  {
    AnswerIs(fault, tables, w);
  }

  // Exactly which inputs the planner answers.

  /** Every repair is of a node of the repaired plan. */
  predicate Tight(base: Plan, rs: Repairs) {
    forall x :: x in rs ==> Known(base, rs, x)
  }

  lemma {:induction false} KnownGrows(base: Plan, rs: Repairs, x: string, s: string, id: string)
    requires Known(base, rs, id)
    ensures Known(base, Add(rs, x, s), id)
    decreases |id|
  {
    if !Has(base, id) {
      KnownGrows(base, rs, x, s, id[|PREFIX|..]);
    }
  }

  lemma {:induction false} TightGrows(base: Plan, rs: Repairs, x: string, s: string)
    requires Tight(base, rs) && Known(base, rs, x)
    ensures Tight(base, Add(rs, x, s))
  {
    forall y | y in Add(rs, x, s)
      ensures Known(base, Add(rs, x, s), y)
    {
      KnownGrows(base, rs, x, s, y);
    }
  }

  lemma {:induction false} KnownRepair(base: Plan, rs: Repairs, x: string)
    requires Plain(base) && Known(base, rs, RecoverId(x))
    ensures x in rs && Known(base, rs, x)
  {
    RecoverIdFacts(x);
  }

  lemma {:induction false} NoOrphan(base: Plan, rs: Repairs, x: string)
    requires Plain(base) && Tight(base, rs) && x !in rs
    ensures RecoverId(x) !in rs
  {
    if RecoverId(x) in rs {
      KnownRepair(base, rs, x);
    }
  }

  /** `x` is a base node, or a repair that the list re-inserts. */
  predicate Anchored(base: Plan, before: seq<string>, fault: Fault, tables: Tables, x: string) {
    Has(base, x) || (IsRecoverId(x) && x in before && Ran(fault, tables, x[|PREFIX|..]).Some?)
  }

  /** The done repair at position i has a strategy and, so far, nothing to stand in front of. */
  predicate Stray(base: Plan, done: seq<string>, fault: Fault, tables: Tables, i: nat)
    requires i < |done|
  {
    && IsRecoverId(done[i]) && Ran(fault, tables, done[i][|PREFIX|..]).Some?
    && !Anchored(base, done[..i], fault, tables, done[i][|PREFIX|..])
  }

  predicate AnyStray(base: Plan, done: seq<string>, fault: Fault, tables: Tables) {
    exists i :: 0 <= i < |done| && Stray(base, done, fault, tables, i)
  }

  lemma {:induction false} AnyStraySnoc(base: Plan, init: seq<string>, nid: string, fault: Fault, tables: Tables)
    ensures AnyStray(base, init + [nid], fault, tables) <==>
      AnyStray(base, init, fault, tables) || Stray(base, init + [nid], fault, tables, |init|)
  {
    var done := init + [nid];
    assert done[..|init|] == init;
    forall i | 0 <= i < |init|
      ensures Stray(base, done, fault, tables, i) <==> Stray(base, init, fault, tables, i)
    {
      assert done[..i] == init[..i] && done[i] == init[i];
    }
  }

  lemma {:induction false} AnchoredIsKnown(base: Plan, done: seq<string>, fault: Fault, tables: Tables, x: string)
    requires Tight(base, DoneRepairs(done, fault, tables))
    ensures Known(base, DoneRepairs(done, fault, tables), x) <==> Anchored(base, done, fault, tables, x)
  {
    DoneRepairsAre(done, fault, tables);
    if IsRecoverId(x) {
      assert RecoverId(x[|PREFIX|..]) == x;
    }
  }

  /** The loop raises exactly on a stray repair, and otherwise rebuilds the base
      plan with the done repairs. */
  lemma {:induction false} DoneRebuilds(base: Plan, done: seq<string>, fault: Fault, tables: Tables)
    requires BasePlan(base)
    ensures ReinsertDone(base, done, fault, tables) ==
      if AnyStray(base, done, fault, tables) then None else Some(Repaired(base, DoneRepairs(done, fault, tables)))
    ensures !AnyStray(base, done, fault, tables) ==> Tight(base, DoneRepairs(done, fault, tables))
  {
    if done == [] {
      NoRepairs(base);
    } else {
      var init, nid := done[..|done| - 1], done[|done| - 1];
      assert done == init + [nid];
      DoneRebuilds(base, init, fault, tables);
      AnyStraySnoc(base, init, nid, fault, tables);
      if !AnyStray(base, init, fault, tables) {
        LastRebuilds(base, init, nid, fault, tables);
      }
    }
  }

  lemma {:induction false} LastRebuilds(base: Plan, init: seq<string>, nid: string, fault: Fault, tables: Tables)
    requires BasePlan(base) && Tight(base, DoneRepairs(init, fault, tables))
    requires ReinsertDone(base, init, fault, tables) == Some(Repaired(base, DoneRepairs(init, fault, tables)))
    ensures var done := init + [nid];
            var stray := Stray(base, done, fault, tables, |init|);
            && ReinsertDone(base, done, fault, tables) ==
               (if stray then None else Some(Repaired(base, DoneRepairs(done, fault, tables))))
            && (!stray ==> Tight(base, DoneRepairs(done, fault, tables)))
  {
    var done := init + [nid];
    assert done[..|init|] == init && done[..|done| - 1] == init;
    if IsRecoverId(nid) && Ran(fault, tables, nid[|PREFIX|..]).Some? {
      var x, rs := nid[|PREFIX|..], DoneRepairs(init, fault, tables);
      var s := Ran(fault, tables, x).value;
      AnchoredIsKnown(base, init, fault, tables, x);
      RepairedHas(base, rs, x);
      DoneRepairsAre(init, fault, tables);
      assert Add(rs, x, s) == DoneRepairs(done, fault, tables);
      if Known(base, rs, x) {
        if x !in rs {
          NoOrphan(base, rs, x);
        }
        InsertIntoRepaired(base, rs, x, s);
        TightGrows(base, rs, x, s);
      }
    }
  }

  lemma {:induction false} NoRepairs(base: Plan)
    ensures Repaired(base, map[]) == base
  {
    if base != [] {
      NoRepairs(base[1..]);
    }
  }

  /** The planner raises: on a stray done repair, or on an answer for a node that
      is neither in the base plan nor a repair it re-inserts. */
  predicate Unanswerable(base: Plan, fault: Fault, tables: Tables) {
    || AnyStray(base, fault.nodesDone, fault, tables)
    || (Answer(fault, tables).Some? && !Anchored(base, fault.nodesDone, fault, tables, fault.node))
  }

  /** Over a base plan `recover_plan` raises exactly then, and otherwise rebuilds
      the base plan with the new repairs. */
  lemma {:induction false} AnswerRebuilds(base: Plan, fault: Fault, tables: Tables)
    requires BasePlan(base)
    ensures Recovered(base, fault, tables) ==
      if Unanswerable(base, fault, tables) then None else Some(Repaired(base, NewRepairs(fault, tables)))
    ensures !Unanswerable(base, fault, tables) ==> Tight(base, NewRepairs(fault, tables))
  {
    DoneRebuilds(base, fault.nodesDone, fault, tables);
    if !AnyStray(base, fault.nodesDone, fault, tables) && Answer(fault, tables).Some? {
      var x, rs := fault.node, DoneRepairs(fault.nodesDone, fault, tables);
      AnchoredIsKnown(base, fault.nodesDone, fault, tables, x);
      RepairedHas(base, rs, x);
      if Known(base, rs, x) {
        if x !in rs {
          NoOrphan(base, rs, x);
        }
        InsertIntoRepaired(base, rs, x, Answer(fault, tables).value);
        TightGrows(base, rs, x, Answer(fault, tables).value);
      }
    }
  }

  /** `recover_plan` on a fault; None stands for the KeyError of an unknown node. */
  method RecoverPlan(base: Plan, fault: Fault, tables: Tables) returns (r: Option<Plan>)
    ensures BasePlan(base) ==>
      r == if Unanswerable(base, fault, tables) then None else Some(Repaired(base, NewRepairs(fault, tables)))
    ensures r == Recovered(base, fault, tables)
  {
    r := Some(base);
    for i := 0 to |fault.nodesDone|
      invariant r == ReinsertDone(base, fault.nodesDone[..i], fault, tables)
    {
      var nid := fault.nodesDone[i];
      assert fault.nodesDone[..i + 1][..i] == fault.nodesDone[..i];
      if IsRecoverId(nid) {
        var x := nid[|PREFIX|..];
        var strategy := Ran(fault, tables, x);
        if r.Some? && strategy.Some? {
          r := InsertRecovery(r.value, x, strategy.value);
        }
      }
    }
    assert fault.nodesDone[..|fault.nodesDone|] == fault.nodesDone;
    var strategy := Answer(fault, tables);
    if r.Some? && strategy.Some? {
      r := InsertRecovery(r.value, fault.node, strategy.value);
    }
    if BasePlan(base) {
      AnswerRebuilds(base, fault, tables);
    }
  }

  /** A done repair of a repair: listed after the repair it stands in front of, it
      is re-inserted; listed before it, or alone, it raises. */
  lemma {:induction false} NestedOrderMatters(n: PlanNode, s: string, t: string, tables: Tables)
    requires NoRepairsIn(n) && n.after == [] && s != [] && t != []
    ensures var x, y := n.id, RecoverId(n.id);
            var ran := map[x := s, y := t];
            && BasePlan([n])
            && Recovered([n], Fault("node_failure", x, None, [y, RecoverId(y)], ran), tables).Some?
            && Recovered([n], Fault("node_failure", x, None, [RecoverId(y), y], ran), tables).None?
            && Recovered([n], Fault("node_failure", x, None, [RecoverId(y)], ran), tables).None?
  {
    var x, y := n.id, RecoverId(n.id);
    var ran := map[x := s, y := t];
    RecoverIdFacts(x);
    RecoverIdFacts(y);
    assert [n][1..] == [] && [n][0].id == x;
    assert Has([n], x) && !Has([n], y);
    var good := Fault("node_failure", x, None, [y, RecoverId(y)], ran);
    var bad := Fault("node_failure", x, None, [RecoverId(y), y], ran);
    var lone := Fault("node_failure", x, None, [RecoverId(y)], ran);
    assert Ran(good, tables, x) == Some(s) && Ran(good, tables, y) == Some(t);
    assert Ran(bad, tables, y) == Some(t) && Ran(lone, tables, y) == Some(t);
    assert good.nodesDone[..1] == [y];
    assert !Stray([n], good.nodesDone, good, tables, 0) && !Stray([n], good.nodesDone, good, tables, 1);
    assert bad.nodesDone[..0] == [] && lone.nodesDone[..0] == [];
    assert Stray([n], bad.nodesDone, bad, tables, 0) && Stray([n], lone.nodesDone, lone, tables, 0);
    AnswerRebuilds([n], good, tables);
    AnswerRebuilds([n], bad, tables);
    AnswerRebuilds([n], lone, tables);
  }
}
