/** The task loop of plugins/task/workload.py around the stateless planner: runs,
    faults, retries, the two gates on a new plan, and which answers pass them. */
module RecoveryLoop {
  import opened Options
  import opened Digraph
  import opened Legality
  import opened Recovery
  import opened RecoveryRuns
  import opened RepairedLegal
  import opened PredRefs

  /** A graph that was executed and the node it faulted at. */
  datatype Entry = Entry(plan: Plan, node: string)

  /** The last accepted plan, how many of its nodes are done, the fault the planner
      is told next, and the executed graphs that faulted. */
  datatype LoopState = LoopState(plan: Plan, k: nat, fault: Fault, history: seq<Entry>)

  /** How often this graph has faulted at this node. */
  function Tried(history: seq<Entry>, e: Entry): (r: nat) {
    if history == [] then 0
    else Tried(history[..|history| - 1], e) + (if history[|history| - 1] == e then 1 else 0)
  }

  /** `plan` runs on from node `from` until a node faults: the next one, or one that
      has just succeeded with a failed stage. */
  ghost predicate Runs(plan: Plan, tasks: seq<Task>, from: nat, before: seq<Entry>, s: LoopState) {
    && s.plan == plan && from <= s.k && s.fault.kind == "node_failure"
    && LoopReports(s.fault, plan, tasks, s.k)
    && (s.fault.node in s.fault.nodesDone ==> from < s.k && s.fault.node == plan[s.k - 1].id)
    && s.history == before + [Entry(plan, s.fault.node)]
  }

  /** The planner answers, and the answer passes `replan_monotone`. */
  predicate AnswerPasses(base: Plan, tables: Tables, tasks: seq<Task>, s: LoopState) {
    && s.k <= |s.plan| && Recovered(base, s.fault, tables).Some?
    && Follows(s.plan, Recovered(base, s.fault, tables).value, tasks, s.k)
  }

  /** `replan_progress`: against a fault with a node, the same graph runs at most twice. */
  predicate Progress(s: LoopState, next: Plan) {
    s.fault.kind == "invalid_plan" || Tried(s.history, Entry(next, s.fault.node)) < 2
  }

  /** One turn: the same plan is retried; the answer is adopted and runs; it is
      turned down as no progress; or it is refused, by whatever gate. */
  ghost predicate Step(base: Plan, tables: Tables, tasks: seq<Task>, s: LoopState, t: LoopState) {
    || Retried(tasks, s, t)
    || Adopted(base, tables, tasks, s, t)
    || TurnedDown(base, tables, tasks, s, t)
    || t == s.(fault := FORGOTTEN)
  }

  ghost predicate Retried(tasks: seq<Task>, s: LoopState, t: LoopState) {
    s.fault.kind == "node_failure" && Runs(s.plan, tasks, s.k, s.history, t)
  }

  ghost predicate Adopted(base: Plan, tables: Tables, tasks: seq<Task>, s: LoopState, t: LoopState) {
    && AnswerPasses(base, tables, tasks, s) && Progress(s, Recovered(base, s.fault, tables).value)
    && Runs(Recovered(base, s.fault, tables).value, tasks, s.k, s.history, t)
  }

  /** The next fault is the old one, now of kind `no_progress`; a second one in a
      row ends the loop. */
  predicate TurnedDown(base: Plan, tables: Tables, tasks: seq<Task>, s: LoopState, t: LoopState) {
    && s.fault.kind == "node_failure" && AnswerPasses(base, tables, tasks, s)
    && !Progress(s, Recovered(base, s.fault, tables).value)
    && t == s.(fault := s.fault.(kind := "no_progress"))
  }

  /** The loop from the first fault of the base plan on. */
  ghost predicate Course(base: Plan, tables: Tables, tasks: seq<Task>, states: seq<LoopState>) {
    && |states| > 0 && Runs(base, tasks, 0, [], states[0])
    && forall i :: 0 <= i < |states| - 1 ==> Step(base, tables, tasks, states[i], states[i + 1])
  }

  // ------------------------------------------------- what every course keeps

  predicate RanNodes(history: seq<Entry>) {
    forall i :: 0 <= i < |history| ==> Has(history[i].plan, history[i].node)
  }

  /** A table has this strategy. */
  predicate Named(tables: Tables, strategy: string) {
    || strategy in tables.byStage.Values
    || exists mode :: mode in tables.byMode && strategy in tables.byMode[mode].Values
  }

  predicate AllNamed(tables: Tables, rs: Repairs) {
    forall x :: x in rs ==> Named(tables, rs[x])
  }

  /** The plan in force is the base plan repaired with `rs`; the fault is a report
      on it, or what a refusal left; and one of no progress is not astray. */
  ghost predicate OnCourse(base: Plan, tables: Tables, tasks: seq<Task>, s: LoopState, rs: Repairs) {
    && Sound(base, rs) && AllNamed(tables, rs) && s.plan == Repaired(base, rs) && s.k <= |s.plan|
    && RanNodes(s.history)
    && (s.fault != FORGOTTEN ==>
         && LoopReports(s.fault, s.plan, tasks, s.k)
         && (s.fault.kind != "node_failure" ==> IsRecoverId(s.fault.node) ==> s.fault.node in s.fault.nodesDone))
    && (s.fault.kind == "invalid_plan" ==> s.fault == FORGOTTEN)
  }

  lemma {:induction false} NodeFaultIsUnanswered(fault: Fault, tables: Tables)
    requires fault.kind != "no_progress"
    ensures Answer(fault, tables) == None && NewRepairs(fault, tables) == DoneRepairs(fault.nodesDone, fault, tables)
    ensures !Astray(fault, tables) && !Late(fault, tables)
  {
  }

  lemma {:induction false} RunsHas(plan: Plan, tasks: seq<Task>, from: nat, before: seq<Entry>, s: LoopState)
    requires Runs(plan, tasks, from, before, s) && RanNodes(before)
    ensures RanNodes(s.history)
  {
    if s.fault.node in s.fault.nodesDone {
      assert plan[s.k - 1].id == s.fault.node;
    }
  }

  lemma {:induction false} AnswerNamed(fault: Fault, tables: Tables)
    ensures Answer(fault, tables).Some? ==> Named(tables, Answer(fault, tables).value)
  {
  }

  lemma {:induction false} NextNamed(base: Plan, tables: Tables, tasks: seq<Task>, s: LoopState, rs: Repairs)
    requires BasePlan(base) && OnCourse(base, tables, tasks, s, rs) && s.fault != FORGOTTEN
    ensures AllNamed(tables, NewRepairs(s.fault, tables))
  {
    DoneRepairsReported(base, rs, s.k, s.fault, tables, tasks);
    AnswerNamed(s.fault, tables);
  }

  /** The planner's answer at a state that is on course. */
  lemma {:induction false} AnswerOnCourse(base: Plan, tables: Tables, tasks: seq<Task>, s: LoopState, rs: Repairs)
    returns (next: Repairs)
    requires BasePlan(base) && OnCourse(base, tables, tasks, s, rs)
    ensures Recovered(base, s.fault, tables) == Some(Repaired(base, next))
    ensures s.fault.kind != "invalid_plan" ==>
      next == NewRepairs(s.fault, tables) && (AnswerPasses(base, tables, tasks, s) <==> !Late(s.fault, tables))
    ensures s.fault.kind == "invalid_plan" ==>
      (AnswerPasses(base, tables, tasks, s) <==>
       forall d :: d in DoneSet(s.plan, tasks, s.k) ==> !IsRecoverId(d))
    ensures AnswerPasses(base, tables, tasks, s) ==> Sound(base, next)
    ensures AllNamed(tables, next)
  {
    if s.fault.kind == "invalid_plan" {
      ForgottenExactly(base, rs, s.k, tables, tasks);
      NoRepairs(base);
      next := map[];
    } else {
      if s.fault.kind == "node_failure" {
        NodeFaultIsUnanswered(s.fault, tables);
      }
      NextAnswerExactly(base, rs, s.k, s.fault, tables, tasks);
      next := NewRepairs(s.fault, tables);
      NextNamed(base, tables, tasks, s, rs);
    }
  }

  lemma {:induction false} TriedHas(history: seq<Entry>, e: Entry)
    requires RanNodes(history) && Tried(history, e) > 0
    ensures Has(e.plan, e.node)
  {
    var init, last := history[..|history| - 1], history[|history| - 1];
    if last != e {
      assert forall i :: 0 <= i < |init| ==> init[i] == history[i];
      TriedHas(init, e);
    }
  }

  lemma {:induction false} DoneRepairIsDone(base: Plan, fault: Fault, tables: Tables)
    requires Plain(base) && IsRecoverId(fault.node)
    requires Known(base, DoneRepairs(fault.nodesDone, fault, tables), fault.node)
    ensures fault.node in fault.nodesDone
  {
    var x := fault.node[|PREFIX|..];
    assert RecoverId(x) == fault.node;
    KnownRepair(base, DoneRepairs(fault.nodesDone, fault, tables), x);
    DoneRepairsAre(fault.nodesDone, fault, tables);
  }

  /** A graph that was tried has the node it faulted at, so that node is no repair
      that the planner leaves out. */
  lemma {:induction false} TurnedDownIsPlaced(base: Plan, s: LoopState, tables: Tables)
    requires Plain(base) && s.fault.kind == "node_failure" && RanNodes(s.history)
    requires Recovered(base, s.fault, tables) == Some(Repaired(base, NewRepairs(s.fault, tables)))
    requires !Progress(s, Recovered(base, s.fault, tables).value)
    ensures IsRecoverId(s.fault.node) ==> s.fault.node in s.fault.nodesDone
  {
    var next := NewRepairs(s.fault, tables);
    NodeFaultIsUnanswered(s.fault, tables);
    TriedHas(s.history, Entry(Repaired(base, next), s.fault.node));
    RepairedHas(base, next, s.fault.node);
    if IsRecoverId(s.fault.node) {
      DoneRepairIsDone(base, s.fault, tables);
    }
  }

  lemma {:induction false} StepStaysOnCourse(base: Plan, tables: Tables, tasks: seq<Task>, s: LoopState, t: LoopState,
                                             rs: Repairs, next: Repairs)
    requires BasePlan(base) && OnCourse(base, tables, tasks, s, rs) && Step(base, tables, tasks, s, t)
    requires Recovered(base, s.fault, tables) == Some(Repaired(base, next)) && AllNamed(tables, next)
    requires s.fault.kind != "invalid_plan" ==> next == NewRepairs(s.fault, tables)
    requires AnswerPasses(base, tables, tasks, s) ==> Sound(base, next)
    ensures OnCourse(base, tables, tasks, t, rs) || OnCourse(base, tables, tasks, t, next)
  {
    if Retried(tasks, s, t) {
      RunsHas(s.plan, tasks, s.k, s.history, t);
      assert OnCourse(base, tables, tasks, t, rs);
    } else if Adopted(base, tables, tasks, s, t) {
      RunsHas(Repaired(base, next), tasks, s.k, s.history, t);
      assert OnCourse(base, tables, tasks, t, next);
    } else if TurnedDown(base, tables, tasks, s, t) {
      TurnedDownIsPlaced(base, s, tables);
      assert OnCourse(base, tables, tasks, t, rs);
    } else {
      assert OnCourse(base, tables, tasks, t, rs);
    }
  }

  lemma {:induction false} CourseStep(base: Plan, tables: Tables, tasks: seq<Task>, states: seq<LoopState>, i: nat)
    requires Course(base, tables, tasks, states) && i + 1 < |states|
    ensures Step(base, tables, tasks, states[i], states[i + 1])
  {
  }

  lemma {:induction false} StateOnCourse(base: Plan, tables: Tables, tasks: seq<Task>, states: seq<LoopState>, i: nat)
    returns (rs: Repairs)
    requires BasePlan(base) && Course(base, tables, tasks, states) && i < |states|
    ensures OnCourse(base, tables, tasks, states[i], rs)
  {
    if i == 0 {
      rs := map[];
      NoRepairs(base);
      RunsHas(base, tasks, 0, [], states[0]);
    } else {
      rs := StateOnCourse(base, tables, tasks, states, i - 1);
      var next := AnswerOnCourse(base, tables, tasks, states[i - 1], rs);
      CourseStep(base, tables, tasks, states, i - 1);
      StepStaysOnCourse(base, tables, tasks, states[i - 1], states[i], rs, next);
      if !OnCourse(base, tables, tasks, states[i], rs) {
        rs := next;
      }
    }
  }

  /** Some done node is a repair. */
  predicate RepairDone(s: LoopState, tasks: seq<Task>)
    requires s.k <= |s.plan|
  {
    exists d :: d in DoneSet(s.plan, tasks, s.k) && IsRecoverId(d)
  }

  /** In every course of the loop the plan in force is the repaired base plan and the
      planner never raises; its answer to a report passes `replan_monotone`
      exactly when it does not come late, its answer after a refusal exactly when
      no repair is done. */
  lemma {:induction false} CourseAnswered(base: Plan, tables: Tables, tasks: seq<Task>, states: seq<LoopState>, i: nat)
    returns (rs: Repairs)
    requires BasePlan(base) && Course(base, tables, tasks, states) && i < |states|
    ensures Sound(base, rs) && states[i].plan == Repaired(base, rs) && states[i].k <= |states[i].plan|
    ensures Recovered(base, states[i].fault, tables).Some?
    ensures states[i].fault.kind != "invalid_plan" ==>
      (AnswerPasses(base, tables, tasks, states[i]) <==> !Late(states[i].fault, tables))
    ensures states[i].fault.kind == "invalid_plan" ==>
      (AnswerPasses(base, tables, tasks, states[i]) <==> !RepairDone(states[i], tasks))
  {
    rs := StateOnCourse(base, tables, tasks, states, i);
    var next := AnswerOnCourse(base, tables, tasks, states[i], rs);
  }

  /** When the base plan is legal, no strategy of the tables is a skill with a
      contract, and the first task has no goal, the plan in force is always legal. */
  lemma {:induction false} CourseLegal(base: Plan, tables: Tables, tasks: seq<Task>, states: seq<LoopState>, i: nat,
                                       records: Records, facts: seq<Ref>, objects: set<string>) returns (rs: Repairs)
    requires BasePlan(base) && Course(base, tables, tasks, states) && i < |states| && NoFirstGoal(tasks)
    requires Legal(ToGraph(base, tasks), records, facts, objects)
    requires forall s :: s in records && Named(tables, s) ==> BareRecord(records[s])
    ensures states[i].plan == Repaired(base, rs)
    ensures Legal(ToGraph(states[i].plan, tasks), WithStrategies(records, rs), facts, objects)
  {
    rs := StateOnCourse(base, tables, tasks, states, i);
    assert StrategiesBare(records, rs);
    GoalFreeStaysLegal(base, rs, tasks, records, facts, objects);
  }

  lemma {:induction false} RefusedStaysPut(base: Plan, tables: Tables, tasks: seq<Task>, s: LoopState, t: LoopState)
    requires s.fault == FORGOTTEN && !AnswerPasses(base, tables, tasks, s) && Step(base, tables, tasks, s, t)
    ensures t == s
  {
  }

  lemma {:induction false} StaysRefused(base: Plan, tables: Tables, tasks: seq<Task>, states: seq<LoopState>, i: nat,
                                        j: nat)
    requires Course(base, tables, tasks, states) && i <= j < |states|
    requires states[i].fault == FORGOTTEN && !AnswerPasses(base, tables, tasks, states[i])
    ensures states[j] == states[i]
  {
    if j > i {
      StaysRefused(base, tables, tasks, states, i, j - 1);
      CourseStep(base, tables, tasks, states, j - 1);
      RefusedStaysPut(base, tables, tasks, states[i], states[j]);
    }
  }

  /** Once an answer is refused with a repair done, no later one is ever accepted. */
  lemma {:induction false} RefusedForGood(base: Plan, tables: Tables, tasks: seq<Task>, states: seq<LoopState>, i: nat,
                                          j: nat)
    requires BasePlan(base) && Course(base, tables, tasks, states) && i <= j < |states|
    requires states[i].fault == FORGOTTEN && states[i].k <= |states[i].plan| && RepairDone(states[i], tasks)
    ensures states[j] == states[i] && !AnswerPasses(base, tables, tasks, states[j])
  {
    var rs := CourseAnswered(base, tables, tasks, states, i);
    StaysRefused(base, tables, tasks, states, i, j);
  }

  // ---------------------------------------- which tables are always followed

  /** No table names a strategy for any stage word. */
  predicate NoStrategy(tables: Tables) {
    && (forall w :: w in tables.byStage && '-' !in w ==> Lookup(tables.byStage, w).None?)
    && forall mode :: mode in tables.byMode ==>
         forall w :: w in tables.byMode[mode] && '-' !in w ==> Lookup(tables.byMode[mode], w).None?
  }

  ghost predicate AlwaysFollowed(tables: Tables) {
    forall base, tasks, states, i ::
      BasePlan(base) && Course(base, tables, tasks, states) && 0 <= i < |states|
      ==> AnswerPasses(base, tables, tasks, states[i])
  }

  lemma {:induction false} NoStrategyNoAnswer(fault: Fault, tables: Tables)
    requires NoStrategy(tables)
    ensures Answer(fault, tables).None?
  {
    var w := StageOf(fault.node);
    assert w in tables.byStage ==> Lookup(tables.byStage, w).None?;
  }

  /** Without strategies the plan in force stays the base plan. */
  lemma {:induction false} StaysBase(base: Plan, tables: Tables, tasks: seq<Task>, states: seq<LoopState>, i: nat)
    requires NoStrategy(tables)
    requires BasePlan(base) && Course(base, tables, tasks, states) && i < |states|
    ensures OnCourse(base, tables, tasks, states[i], map[])
  {
    NoRepairs(base);
    if i == 0 {
      RunsHas(base, tasks, 0, [], states[0]);
    } else {
      var s, t := states[i - 1], states[i];
      StaysBase(base, tables, tasks, states, i - 1);
      CourseStep(base, tables, tasks, states, i - 1);
      BaseAnswer(base, tables, tasks, s);
      StepStaysOnCourse(base, tables, tasks, s, t, map[], map[]);
    }
  }

  lemma {:induction false} BaseAnswer(base: Plan, tables: Tables, tasks: seq<Task>, s: LoopState)
    requires NoStrategy(tables) && BasePlan(base) && OnCourse(base, tables, tasks, s, map[])
    ensures Recovered(base, s.fault, tables) == Some(base) && AnswerPasses(base, tables, tasks, s)
    ensures s.fault.kind != "invalid_plan" ==> NewRepairs(s.fault, tables) == map[]
  {
    NoRepairs(base);
    NoStrategyNoAnswer(s.fault, tables);
    var next := AnswerOnCourse(base, tables, tasks, s, map[]);
    forall d | d in DoneSet(s.plan, tasks, s.k)
      ensures !IsRecoverId(d)
    {
      DoneIsKnown(base, map[], tasks, s.k, d);
    }
    if s.fault.kind != "invalid_plan" {
      DoneRepairsReported(base, map[], s.k, s.fault, tables, tasks);
      assert next == map[];
    }
  }

  /** The planner is followed on every course of every base plan exactly when its
      tables name no strategy at all. */
  lemma {:induction false} AnsweredExactly(tables: Tables)
    ensures AlwaysFollowed(tables) <==> NoStrategy(tables)
  {
    if NoStrategy(tables) {
      forall base, tasks, states, i | BasePlan(base) && Course(base, tables, tasks, states) && 0 <= i < |states|
        ensures AnswerPasses(base, tables, tasks, states[i])
      {
        StaysBase(base, tables, tasks, states, i);
        BaseAnswer(base, tables, tasks, states[i]);
      }
    } else {
      var base, states := LateCourse(tables);
    }
  }

  // The course that any strategy makes possible.

  lemma {:induction false} SomeStrategy(tables: Tables) returns (w: string, mode: Option<string>)
    requires !NoStrategy(tables)
    ensures '-' !in w && forall node, done, ran :: StageOf(node) == w ==>
      Answer(Fault("no_progress", node, mode, done, ran), tables).Some?
  {
    if v :| v in tables.byStage && '-' !in v && Lookup(tables.byStage, v).Some? {
      w, mode := v, None;
    } else {
      var m, v :| m in tables.byMode && v in tables.byMode[m] && '-' !in v && Lookup(tables.byMode[m], v).Some?;
      w, mode := v, Some(m);
    }
  }

  function OnePick(id: string): (r: PlanNode) {
    PlanNode(id, "pick", map[], [], None, None, None)
  }

  lemma {:induction false} WordAlone(w: string)
    requires '-' !in w
    ensures StageOf(w) == w && !IsRecoverId(w)
  {
    if w != [] {
      assert w[0] in w && w == [w[0]] + w[1..];
      WordAlone(w[1..]);
    }
    assert PREFIX[|PREFIX| - 1] == '-';
  }

  /** A nonempty id with this stage word, and no repair. */
  lemma {:induction false} IdFor(w: string) returns (id: string)
    requires '-' !in w
    ensures id != [] && StageOf(id) == w && !IsRecoverId(id)
  {
    WordAlone(w);
    id := if w == [] then "-" else w;
    assert !IsRecoverId("-");
  }

  /** The node fails outright, then succeeds with a failed stage; the answer is the
      same graph a third time, and is turned down. */
  function LateStates(id: string, mode: Option<string>): (r: seq<LoopState>)
    ensures |r| == 3
  {
    var plan, e := [OnePick(id)], Entry([OnePick(id)], id);
    [LoopState(plan, 0, Fault("node_failure", id, mode, [], map[]), [e]),
     LoopState(plan, 1, Fault("node_failure", id, mode, [id], map[]), [e, e]),
     LoopState(plan, 1, Fault("no_progress", id, mode, [id], map[]), [e, e])]
  }

  lemma {:induction false} LateReports(id: string, mode: Option<string>)
    requires !IsRecoverId(id)
    ensures var s, plan := LateStates(id, mode), [OnePick(id)];
            BasePlan(plan) && Runs(plan, [], 0, [], s[0]) && Runs(plan, [], 0, s[0].history, s[1])
  {
    var s, plan := LateStates(id, mode), [OnePick(id)];
    assert plan[1..] == [];
    assert DoneSet(plan, [], 0) == {};
    DoneHolds(plan, [], 1, 0);
    assert DoneSet(plan, [], 1) == {id};
    assert Elements([id]) == {id} && Elements([]) == {};
    assert plan[0].id == id && Strategies(plan, 0) == map[] && Strategies(plan, 1) == map[];
  }

  lemma {:induction false} TriedTwice(e: Entry)
    ensures Tried([e], e) == 1 && Tried([e, e], e) == 2
  {
    assert [e][..0] == [] && [e, e][..1] == [e];
  }

  lemma {:induction false} LateIsCourse(id: string, mode: Option<string>, tables: Tables)
    requires !IsRecoverId(id) && Answer(Fault("no_progress", id, mode, [id], map[]), tables).Some?
    ensures BasePlan([OnePick(id)]) && Course([OnePick(id)], tables, [], LateStates(id, mode))
  {
    var s, plan := LateStates(id, mode), [OnePick(id)];
    LateReports(id, mode);
    TriedTwice(Entry(plan, id));
    NoRepairs(plan);
    RunsHas(plan, [], 0, [], s[0]);
    RunsHas(plan, [], 0, s[0].history, s[1]);
    SameAnswer(plan, tables, s[0]);
    SameAnswer(plan, tables, s[1]);
    assert Adopted(plan, tables, [], s[0], s[1]);
    assert TurnedDown(plan, tables, [], s[1], s[2]);
  }

  /** Without done repairs a node fault is answered with the base plan. */
  lemma {:induction false} SameAnswer(plan: Plan, tables: Tables, s: LoopState)
    requires BasePlan(plan) && OnCourse(plan, tables, [], s, map[]) && s.fault.kind == "node_failure"
    ensures Recovered(plan, s.fault, tables) == Some(plan) && AnswerPasses(plan, tables, [], s)
  {
    NoRepairs(plan);
    NodeFaultIsUnanswered(s.fault, tables);
    var next := AnswerOnCourse(plan, tables, [], s, map[]);
    DoneRepairsReported(plan, map[], s.k, s.fault, tables, []);
    assert next == map[];
  }

  /** Whatever strategy the tables name, a node of that stage that fails once and
      then succeeds with a failed stage gets a repair in front of it too late. */
  lemma {:induction false} LateCourse(tables: Tables) returns (base: Plan, states: seq<LoopState>)
    requires !NoStrategy(tables)
    ensures BasePlan(base) && Course(base, tables, [], states) && |states| == 3
    ensures states[2].fault.kind == "no_progress" && Late(states[2].fault, tables)
    ensures !AnswerPasses(base, tables, [], states[2])
  {
    var w, mode := SomeStrategy(tables);
    var id := IdFor(w);
    base, states := [OnePick(id)], LateStates(id, mode);
    LateIsCourse(id, mode, tables);
    RecoverIdFacts(id);
    assert RecoverId(id) !in [id];
    var rs := CourseAnswered(base, tables, [], states, 2);
  }
}
