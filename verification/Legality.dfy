/** `_resolve` and `validate_graph` of harness/protocol.py: Legal(G) as a
    predicate over the transitive closure of `after`, and the validator that
    decides it and reports every problem. */
module Legality {
  import opened Options
  import opened Digraph
  import opened Plans
  import opened PredRefs
  import Ancestors

  // ------------------------------------------------------------ data model

  datatype PyType = StrType | IntType | FloatType | BoolType | OtherType

  /** An argument value: its Python type and its `str()` form. */
  datatype Value = Value(pyType: PyType, text: string)

  datatype Node = Node(id: string, task: string, skill: string, args: map<string, Value>,
                       after: seq<string>, executor: Option<string>, kind: string)

  datatype Task = Task(id: string, goal: seq<string>)

  datatype ExecutionGraph = ExecutionGraph(tasks: seq<Task>, nodes: seq<Node>)

  /** A SkillRecordV0: argument schema, symbolic contract and bound policy keys. */
  datatype Record = Record(id: string, args: map<string, string>, needs: seq<Ref>, gives: seq<Ref>,
                           clobbers: seq<Ref>, policies: set<string>)

  type Records = map<string, Record>

  datatype Problem =
    | DuplicateNode(node: string)
    | UnknownSkill(node: string, skill: string)
    | BadOrder(order: Ancestors.OrderProblem)
    | UnknownTask(node: string, task: string)
    | ArgNames(node: string, missing: set<string>, unknown: set<string>)
    | UnknownType(record: string, arg: string, typeName: string)
    | WrongType(node: string, arg: string, typeName: string)
    | Unbound(node: string, executor: string)
    | Ungrounded(node: string, arg: string)
    | NothingProvides(node: string, atom: string)
    | EverySupporterThreatened(node: string, atom: string)
    | GoalNotEnsured(task: string, atom: string)
    | GoalClobbered(task: string, atom: string)

  /** `(ok, problems)`, or the ValueError of a malformed predicate reference. */
  datatype Verdict = Verdict(ok: bool, problems: seq<Problem>) | Raised

  // --------------------------------------------------- dictionaries by node id

  /** `{n.id: n for n in nodes}`: the last node with an id wins. */
  function NodeMap(nodes: seq<Node>): (r: map<string, Node>)
    ensures forall i :: 0 <= i < |nodes| ==> nodes[i].id in r
    ensures forall id :: id in r ==> r[id] in nodes && r[id].id == id
  {
    if nodes == [] then map[]
    else
      var init, last := nodes[..|nodes| - 1], nodes[|nodes| - 1];
      assert nodes == init + [last];
      NodeMap(init)[last.id := last]
  }

  function Ids(nodes: seq<Node>): (r: seq<string>)
    ensures |r| == |nodes| && forall i :: 0 <= i < |nodes| ==> r[i] == nodes[i].id
  {
    seq(|nodes|, i requires 0 <= i < |nodes| => nodes[i].id)
  }

  /** The `after` relation, read from a node to the nodes it waits for. */
  function AfterGraph(nodes: seq<Node>): (r: Graph) {
    map id | id in NodeMap(nodes) :: NodeMap(nodes)[id].after
  }

  function Env(n: Node): (r: map<string, string>) {
    map k | k in n.args :: n.args[k].text
  }

  function InstantiateAll(refs: seq<Ref>, env: map<string, string>): (r: Option<seq<string>>) {
    if refs == [] then Some([])
    else
      match (InstantiateAll(refs[..|refs| - 1], env), Instantiate(refs[|refs| - 1], env))
      case (Some(init), Some(last)) => Some(init + [last])
      case _ => None
  }

  /** The instantiated contract of a node. */
  function StepOf(n: Node, rec: Record): (r: Option<Step>) {
    match (InstantiateAll(rec.needs, Env(n)), InstantiateAll(rec.gives, Env(n)), InstantiateAll(rec.clobbers, Env(n)))
    case (Some(req), Some(ens), Some(clob)) => Some(Step(req, ens, Elements(clob)))
    case _ => None
  }

  predicate SkillsKnown(nodes: seq<Node>, records: Records) {
    forall i :: 0 <= i < |nodes| ==> nodes[i].skill in records
  }

  predicate ContractsParse(nodes: seq<Node>, records: Records)
    requires SkillsKnown(nodes, records)
  {
    forall i :: 0 <= i < |nodes| ==> StepOf(nodes[i], records[nodes[i].skill]).Some?
  }

  function StepsOf(nodes: seq<Node>, records: Records): (r: Steps)
    requires SkillsKnown(nodes, records) && ContractsParse(nodes, records)
    ensures r.Keys == NodeMap(nodes).Keys
  {
    map id | id in NodeMap(nodes) :: StepOf(NodeMap(nodes)[id], records[NodeMap(nodes)[id].skill]).value
  }

  predicate FactsParse(facts: seq<Ref>) {
    forall i :: 0 <= i < |facts| ==> Canonical(facts[i]).Some?
  }

  function FactSet(facts: seq<Ref>): (r: set<string>)
    requires FactsParse(facts)
  {
    set i | 0 <= i < |facts| :: Canonical(facts[i]).value
  }

  // ------------------------------------------------ structural well-formedness

  predicate UniqueIds(nodes: seq<Node>) {
    forall i, j :: 0 <= i < j < |nodes| ==> nodes[i].id != nodes[j].id
  }

  /** No problem of the first phase: unique ids, known skills, a closed acyclic order. */
  ghost predicate WellOrdered(g: ExecutionGraph, records: Records) {
    && UniqueIds(g.nodes)
    && SkillsKnown(g.nodes, records)
    && Closed(AfterGraph(g.nodes))
    && Acyclic(AfterGraph(g.nodes))
  }

  predicate DuplicateUpTo(nodes: seq<Node>, k: nat, q: Problem)
    requires k <= |nodes|
  {
    q.DuplicateNode? && exists i, j :: 0 <= i < j < k && nodes[i].id == q.node && nodes[j].id == q.node
  }

  predicate UnknownSkillUpTo(nodes: seq<Node>, records: Records, k: nat, q: Problem)
    requires k <= |nodes|
  {
    && q.UnknownSkill? && q.skill !in records
    && exists i :: 0 <= i < k && nodes[i].id == q.node && nodes[i].skill == q.skill
  }

  ghost predicate StructuralProblem(g: ExecutionGraph, records: Records, q: Problem) {
    || DuplicateUpTo(g.nodes, |g.nodes|, q)
    || UnknownSkillUpTo(g.nodes, records, |g.nodes|, q)
    || (q.BadOrder? && Ancestors.Genuine(AfterGraph(g.nodes), q.order))
  }

  // ----------------------------------------------------- Typed, Bound, Grounded

  /** TYPES of harness/protocol.py. */
  function TypeNamed(name: string): (r: Option<PyType>) {
    if name == "entity" || name == "str" then Some(StrType)
    else if name == "int" then Some(IntType)
    else if name == "float" then Some(FloatType)
    else if name == "bool" then Some(BoolType)
    else None
  }

  predicate TypedProblem(n: Node, rec: Record, tasks: seq<Task>, q: Problem) {
    match q
    case UnknownTask(id, t) => id == n.id && t == n.task && forall i :: 0 <= i < |tasks| ==> tasks[i].id != t
    case ArgNames(id, missing, unknown) =>
      && id == n.id && missing == rec.args.Keys - n.args.Keys && unknown == n.args.Keys - rec.args.Keys
      && missing + unknown != {}
    case UnknownType(rid, k, ty) =>
      rid == rec.id && k in n.args && k in rec.args && ty == rec.args[k] && TypeNamed(ty).None?
    case WrongType(id, k, ty) =>
      && id == n.id && k in n.args && k in rec.args && ty == rec.args[k]
      && TypeNamed(ty).Some? && TypeNamed(ty).value != n.args[k].pyType
    case _ => false
  }

  predicate BoundProblem(n: Node, rec: Record, q: Problem) {
    q.Unbound? && q.node == n.id && n.executor == Some(q.executor) && q.executor !in rec.policies + {"scripted"}
  }

  /** Every atom ensured by a predecessor can be read back. */
  predicate Readable(anc: Table, steps: Steps, n: string) {
    n in anc && forall m :: m in anc[n] && m in steps ==>
      forall i :: 0 <= i < |steps[m].ens| ==> ParseText(steps[m].ens[i]).Some?
  }

  /** `v` is an argument of an atom that a predecessor ensures. */
  predicate Produced(anc: Table, steps: Steps, n: string, v: string)
    requires Readable(anc, steps, n)
  {
    exists m :: m in anc[n] && m in steps &&
      exists i :: 0 <= i < |steps[m].ens| && v in ParseText(steps[m].ens[i]).value.args
  }

  predicate GroundedProblem(n: Node, rec: Record, anc: Table, steps: Steps, objects: set<string>, q: Problem)
    requires Readable(anc, steps, n.id)
  {
    && q.Ungrounded? && q.node == n.id && q.arg in n.args
    && q.arg in rec.args && rec.args[q.arg] == "entity"
    && n.args[q.arg].text !in objects && !Produced(anc, steps, n.id, n.args[q.arg].text)
  }

  // --------------------------------------------------------- Supported, Covered

  predicate HasSupporter(anc: Table, steps: Steps, facts: State, n: string, p: string) {
    p in facts || exists m :: m in anc && m in steps && Precedes(anc, m, n) && p in steps[m].ens
  }

  predicate SupportProblem(n: Node, anc: Table, steps: Steps, facts: State, q: Problem) {
    match q
    case NothingProvides(id, p) =>
      id == n.id && id in steps && p in steps[id].req && !HasSupporter(anc, steps, facts, id, p)
    case EverySupporterThreatened(id, p) =>
      && id == n.id && id in steps && p in steps[id].req
      && HasSupporter(anc, steps, facts, id, p) && !Supported(anc, steps, facts, id, p)
    case _ => false
  }

  function MembersOf(nodes: seq<Node>, task: string): (r: seq<string>)
    ensures forall id :: id in r <==> exists i :: 0 <= i < |nodes| && nodes[i].id == id && nodes[i].task == task
  {
    if nodes == [] then []
    else
      var last := nodes[|nodes| - 1];
      MembersOf(nodes[..|nodes| - 1], task) + (if last.task == task then [last.id] else [])
  }

  predicate Ensured(steps: Steps, members: seq<string>, p: string) {
    exists m :: m in members && m in steps && p in steps[m].ens
  }

  predicate CoverProblem(t: Task, nodes: seq<Node>, anc: Table, steps: Steps, q: Problem) {
    var members := MembersOf(nodes, t.id);
    match q
    case GoalNotEnsured(id, p) => id == t.id && p in t.goal && !Ensured(steps, members, p)
    case GoalClobbered(id, p) =>
      id == t.id && p in t.goal && Ensured(steps, members, p) && !Covered(anc, steps, members, p)
    case _ => false
  }

  // ------------------------------------------------------------------ Legal(G)

  // Problems of one kind among the first k nodes (tasks).

  predicate TypedUpTo(g: ExecutionGraph, records: Records, k: nat, q: Problem)
    requires SkillsKnown(g.nodes, records) && k <= |g.nodes|
  {
    exists i :: 0 <= i < k && TypedProblem(g.nodes[i], records[g.nodes[i].skill], g.tasks, q)
  }

  predicate BoundUpTo(g: ExecutionGraph, records: Records, k: nat, q: Problem)
    requires SkillsKnown(g.nodes, records) && k <= |g.nodes|
  {
    exists i :: 0 <= i < k && BoundProblem(g.nodes[i], records[g.nodes[i].skill], q)
  }

  predicate GroundedUpTo(g: ExecutionGraph, records: Records, anc: Table, steps: Steps, objects: set<string>,
                         k: nat, q: Problem)
    requires SkillsKnown(g.nodes, records) && k <= |g.nodes|
    requires forall i :: 0 <= i < k ==> Readable(anc, steps, g.nodes[i].id)
  {
    exists i :: 0 <= i < k && GroundedProblem(g.nodes[i], records[g.nodes[i].skill], anc, steps, objects, q)
  }

  predicate SupportUpTo(g: ExecutionGraph, anc: Table, steps: Steps, facts: State, k: nat, q: Problem)
    requires k <= |g.nodes|
  {
    exists i :: 0 <= i < k && SupportProblem(g.nodes[i], anc, steps, facts, q)
  }

  predicate CoverUpTo(g: ExecutionGraph, anc: Table, steps: Steps, k: nat, q: Problem)
    requires k <= |g.tasks|
  {
    exists i :: 0 <= i < k && CoverProblem(g.tasks[i], g.nodes, anc, steps, q)
  }

  predicate AllReadable(g: ExecutionGraph, anc: Table, steps: Steps) {
    forall i :: 0 <= i < |g.nodes| ==> g.nodes[i].id in steps && Readable(anc, steps, g.nodes[i].id)
  }

  predicate SecondPhase(g: ExecutionGraph, records: Records, anc: Table, steps: Steps, facts: State,
                        objects: set<string>, q: Problem)
    requires SkillsKnown(g.nodes, records) && AllReadable(g, anc, steps)
  {
    || TypedUpTo(g, records, |g.nodes|, q)
    || BoundUpTo(g, records, |g.nodes|, q)
    || GroundedUpTo(g, records, anc, steps, objects, |g.nodes|, q)
    || SupportUpTo(g, anc, steps, facts, |g.nodes|, q)
    || CoverUpTo(g, anc, steps, |g.tasks|, q)
  }

  predicate Contracted(g: ExecutionGraph, records: Records, anc: Table, steps: Steps, facts: State,
                       objects: set<string>)
    requires SkillsKnown(g.nodes, records) && AllReadable(g, anc, steps)
  {
    && AllTyped(g, records)
    && AllBound(g, records)
    && AllGrounded(g, records, anc, steps, objects)
    && AllSupported(g, anc, steps, facts)
    && AllCovered(g, anc, steps)
  }

  /** A problem of the second phase, reached only by a well-ordered graph whose references parse. */
  ghost predicate ContractProblem(g: ExecutionGraph, records: Records, facts: State, objects: set<string>, q: Problem)
    requires WellOrdered(g, records) && RefsParse(g, records)
  {
    SecondPhase(g, records, Closure(AfterGraph(g.nodes)), StepsOf(g.nodes, records), facts, objects, q)
  }

  ghost predicate RefsParse(g: ExecutionGraph, records: Records)
    requires WellOrdered(g, records)
  {
    ContractsParse(g.nodes, records)
    && AllReadable(g, Closure(AfterGraph(g.nodes)), StepsOf(g.nodes, records))
  }

  /** Legal(G) = Typed and Bound and Grounded and Supported and Covered, stated positively. */
  ghost predicate Legal(g: ExecutionGraph, records: Records, facts: seq<Ref>, objects: set<string>) {
    && FactsParse(facts) && WellOrdered(g, records) && RefsParse(g, records)
    && Contracted(g, records, Closure(AfterGraph(g.nodes)), StepsOf(g.nodes, records), FactSet(facts), objects)
  }

  predicate AllTyped(g: ExecutionGraph, records: Records)
    requires SkillsKnown(g.nodes, records)
  {
    forall i :: 0 <= i < |g.nodes| ==> NodeTyped(g.nodes[i], records[g.nodes[i].skill], g.tasks)
  }

  predicate AllBound(g: ExecutionGraph, records: Records)
    requires SkillsKnown(g.nodes, records)
  {
    forall i :: 0 <= i < |g.nodes| ==> NodeBound(g.nodes[i], records[g.nodes[i].skill])
  }

  predicate AllGrounded(g: ExecutionGraph, records: Records, anc: Table, steps: Steps, objects: set<string>)
    requires SkillsKnown(g.nodes, records)
    requires forall i :: 0 <= i < |g.nodes| ==> Readable(anc, steps, g.nodes[i].id)
  {
    forall i :: 0 <= i < |g.nodes| ==> NodeGrounded(g.nodes[i], records[g.nodes[i].skill], anc, steps, objects)
  }

  predicate AllSupported(g: ExecutionGraph, anc: Table, steps: Steps, facts: State) {
    forall i :: 0 <= i < |g.nodes| ==> NodeSupported(g.nodes[i], anc, steps, facts)
  }

  predicate AllCovered(g: ExecutionGraph, anc: Table, steps: Steps) {
    forall i :: 0 <= i < |g.tasks| ==> TaskCovered(g.tasks[i], g.nodes, anc, steps)
  }

  predicate NodeTyped(n: Node, rec: Record, tasks: seq<Task>) {
    && (exists i :: 0 <= i < |tasks| && tasks[i].id == n.task)
    && n.args.Keys == rec.args.Keys
    && forall k :: k in n.args ==> TypeNamed(rec.args[k]) == Some(n.args[k].pyType)
  }

  predicate NodeBound(n: Node, rec: Record) {
    n.executor.Some? ==> n.executor.value in rec.policies + {"scripted"}
  }

  predicate NodeGrounded(n: Node, rec: Record, anc: Table, steps: Steps, objects: set<string>)
    requires Readable(anc, steps, n.id)
  {
    forall k :: k in n.args && k in rec.args && rec.args[k] == "entity" ==>
      n.args[k].text in objects || Produced(anc, steps, n.id, n.args[k].text)
  }

  predicate NodeSupported(n: Node, anc: Table, steps: Steps, facts: State) {
    n.id in steps && forall i :: 0 <= i < |steps[n.id].req| ==> Supported(anc, steps, facts, n.id, steps[n.id].req[i])
  }

  predicate TaskCovered(t: Task, nodes: seq<Node>, anc: Table, steps: Steps) {
    forall i :: 0 <= i < |t.goal| ==> Covered(anc, steps, MembersOf(nodes, t.id), t.goal[i])
  }
}
