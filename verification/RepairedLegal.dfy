/** When the planner's answers are legal: a plan with repairs in front of some of
    its nodes has the legality of the plan itself, up to the goals of the task that
    the repairs count for. */
module RepairedLegal {
  import opened Options
  import opened Digraph
  import opened Plans
  import opened PredRefs
  import opened Legality
  import opened Recovery
  import opened RecoveryRuns
  import LegalRuns

  // ------------------------------------------- the graph of a repaired plan

  /** The node that a repair stands in front of, and any other node itself. */
  function Home(u: string): (r: string) {
    if IsRecoverId(u) then u[|PREFIX|..] else u
  }

  /** `b` is `a` with a repair in front of each node of `rs`. */
  ghost predicate Mends(a: Graph, b: Graph, rs: set<string>) {
    && rs <= a.Keys
    && (forall n :: n in a ==> !IsRecoverId(n) && forall y :: y in a[n] ==> !IsRecoverId(y))
    && (forall u :: u in b <==> u in a || (IsRecoverId(u) && Home(u) in rs))
    && (forall n :: n in a ==> b[n] == a[n] + (if n in rs then [RecoverId(n)] else []))
    && (forall x :: x in rs ==> b[RecoverId(x)] == a[x])
  }

  lemma {:induction false} MendedEdge(a: Graph, b: Graph, rs: set<string>, u: string, v: string)
    requires Mends(a, b, rs)
    ensures !IsRecoverId(v) ==> (Edge(b, u, v) <==> u in b && Edge(a, Home(u), v))
    ensures IsRecoverId(v) ==> (Edge(b, u, v) <==> u == Home(v) && u in rs)
  {
    RecoverIdFacts(u);
    if IsRecoverId(v) {
      assert v == RecoverId(Home(v));
      RecoverIdFacts(Home(v));
    }
    if u in b && IsRecoverId(u) {
      assert u == RecoverId(Home(u));
    }
  }

  /** What reaches a node of the plan in the repaired graph, reached it before. */
  lemma {:induction false} MendedWalk(a: Graph, b: Graph, rs: set<string>, p: seq<string>, u: string, v: string)
    requires Mends(a, b, rs) && WalkFromTo(b, p, u, v) && !IsRecoverId(v)
    ensures u in b && Reaches(a, Home(u), v)
    decreases |p|
  {
    var w := p[1];
    assert Edge(b, p[0], p[1]);
    MendedEdge(a, b, rs, u, w);
    if |p| == 2 {
      EdgeReaches(a, Home(u), v);
    } else {
      assert WalkFromTo(b, p[1..], w, v) by {
        forall i | 0 <= i < |p| - 2
          ensures Edge(b, p[1..][i], p[1..][i + 1])
        {
          assert Edge(b, p[i + 1], p[i + 1 + 1]);
        }
      }
      MendedWalk(a, b, rs, p[1..], w, v);
      if !IsRecoverId(w) {
        EdgeReaches(a, Home(u), w);
        ReachesTransitive(a, Home(u), w, v);
      } else {
        assert Home(w) == u == Home(u);
      }
    }
  }

  lemma {:induction false} PlanWalk(a: Graph, b: Graph, rs: set<string>, x: string, v: string)
    requires Mends(a, b, rs) && Reaches(a, x, v)
    ensures Reaches(b, x, v)
  {
    var p :| WalkFromTo(a, p, x, v);
    forall i | 0 <= i < |p| - 1
      ensures Edge(b, p[i], p[i + 1])
    {
      assert Edge(a, p[i], p[i + 1]);
    }
    assert WalkFromTo(b, p, x, v);
  }

  lemma {:induction false} MendedReaches(a: Graph, b: Graph, rs: set<string>, u: string, v: string)
    requires Mends(a, b, rs) && u in b && !IsRecoverId(v)
    ensures Reaches(b, u, v) <==> Reaches(a, Home(u), v)
  {
    if Reaches(b, u, v) {
      var p :| WalkFromTo(b, p, u, v);
      MendedWalk(a, b, rs, p, u, v);
    }
    if Reaches(a, Home(u), v) {
      if IsRecoverId(u) {
        assert u == RecoverId(Home(u));
        var y := FirstStep(a, Home(u), v);
        EdgeReaches(b, u, y);
        if y != v {
          PlanWalk(a, b, rs, y, v);
          ReachesTransitive(b, u, y, v);
        }
      } else {
        PlanWalk(a, b, rs, u, v);
      }
    }
  }

  /** A repair is reached from its node and from what waits for its node. */
  lemma {:induction false} RepairReached(a: Graph, b: Graph, rs: set<string>, c: string, x: string)
    requires Mends(a, b, rs) && c in a && x in rs
    ensures Reaches(b, c, RecoverId(x)) <==> c == x || Reaches(a, c, x)
  {
    RecoverIdFacts(x);
    assert Edge(b, x, RecoverId(x)) by { MendedEdge(a, b, rs, x, RecoverId(x)); }
    EdgeReaches(b, x, RecoverId(x));
    MendedReaches(a, b, rs, c, x);
    if Reaches(a, c, x) {
      ReachesTransitive(b, c, x, RecoverId(x));
    }
    if Reaches(b, c, RecoverId(x)) {
      var p :| WalkFromTo(b, p, c, RecoverId(x));
      var k := |p| - 2;
      assert Edge(b, p[k], p[k + 1]);
      MendedEdge(a, b, rs, p[k], RecoverId(x));
      if k > 0 {
        WalkReaches(b, p, 0, k);
      }
    }
  }

  // ------------------------------------------------- tables of both graphs

  ghost predicate MendedKeys(anc: Table, anc2: Table, rs: set<string>) {
    && rs <= anc.Keys && (forall n :: n in anc ==> !IsRecoverId(n))
    && forall u :: u in anc2 <==> u in anc || (IsRecoverId(u) && Home(u) in rs)
  }

  ghost predicate SamePast(anc: Table, anc2: Table) {
    forall u, v :: u in anc2 && v in anc ==> (Precedes(anc2, v, u) <==> Precedes(anc, v, Home(u)))
  }

  ghost predicate RepairsPrecede(anc: Table, anc2: Table, rs: set<string>) {
    forall c, x :: c in anc && x in rs ==> (Precedes(anc2, RecoverId(x), c) <==> c == x || Precedes(anc, x, c))
  }

  ghost predicate MendedTable(anc: Table, anc2: Table, rs: set<string>) {
    MendedKeys(anc, anc2, rs) && SamePast(anc, anc2) && RepairsPrecede(anc, anc2, rs)
  }

  lemma {:induction false} MendedPrecedes(a: Graph, b: Graph, rs: set<string>, u: string, v: string)
    requires Mends(a, b, rs) && u in b && v in a
    ensures Precedes(Closure(b), v, u) <==> Precedes(Closure(a), v, Home(u))
  {
    assert v in b && Home(u) in a;
    MendedReaches(a, b, rs, u, v);
  }

  lemma {:induction false} RepairPrecedes(a: Graph, b: Graph, rs: set<string>, c: string, x: string)
    requires Mends(a, b, rs) && c in a && x in rs
    ensures Precedes(Closure(b), RecoverId(x), c) <==> c == x || Precedes(Closure(a), x, c)
  {
    RecoverIdFacts(x);
    assert RecoverId(x) in b && c in b;
    RepairReached(a, b, rs, c, x);
  }

  lemma {:induction false} SamePastClosure(a: Graph, b: Graph, rs: set<string>)
    requires Mends(a, b, rs)
    ensures SamePast(Closure(a), Closure(b))
  {
    forall u, v | u in Closure(b) && v in Closure(a)
      ensures Precedes(Closure(b), v, u) <==> Precedes(Closure(a), v, Home(u))
    {
      MendedPrecedes(a, b, rs, u, v);
    }
  }

  lemma {:induction false} RepairsPrecedeClosure(a: Graph, b: Graph, rs: set<string>)
    requires Mends(a, b, rs)
    ensures RepairsPrecede(Closure(a), Closure(b), rs)
  {
    forall c, x | c in Closure(a) && x in rs
      ensures Precedes(Closure(b), RecoverId(x), c) <==> c == x || Precedes(Closure(a), x, c)
    {
      RepairPrecedes(a, b, rs, c, x);
    }
  }

  lemma {:induction false} MendedClosure(a: Graph, b: Graph, rs: set<string>)
    requires Mends(a, b, rs)
    ensures MendedTable(Closure(a), Closure(b), rs)
  {
    SamePastClosure(a, b, rs);
    RepairsPrecedeClosure(a, b, rs);
    assert MendedKeys(Closure(a), Closure(b), rs);
  }

  /** Repairs require, ensure and clobber nothing. */
  ghost predicate MendedSteps(steps: Steps, steps2: Steps, rs: set<string>) {
    && (forall u :: u in steps2 <==> u in steps || (IsRecoverId(u) && Home(u) in rs))
    && (forall n :: n in steps ==> !IsRecoverId(n) && steps2[n] == steps[n])
    && forall u :: u in steps2 && IsRecoverId(u) ==> steps2[u] == Step([], [], {})
  }

  lemma {:induction false} UnthreatenedAlike(anc: Table, anc2: Table, steps: Steps, steps2: Steps, rs: set<string>,
                                             p: string, m: Option<string>, n: Option<string>, exempt: set<string>,
                                             exempt2: set<string>)
    requires MendedTable(anc, anc2, rs) && MendedSteps(steps, steps2, rs) && steps.Keys == anc.Keys
    requires (m.Some? ==> m.value in anc) && (n.Some? ==> n.value in anc)
    requires forall c :: c in anc ==> (c in exempt <==> c in exempt2)
    ensures Unthreatened(anc2, steps2, p, m, n, exempt2) <==> Unthreatened(anc, steps, p, m, n, exempt)
  {
    forall c, d | c in anc && d in anc
      ensures Precedes(anc2, c, d) <==> Precedes(anc, c, d)
    {
      assert Home(d) == d && d in anc2;
    }
  }

  lemma {:induction false} SupportedStill(anc: Table, anc2: Table, steps: Steps, steps2: Steps, rs: set<string>,
                                          facts: State, n: string, p: string)
    requires MendedTable(anc, anc2, rs) && MendedSteps(steps, steps2, rs) && steps.Keys == anc.Keys
    requires n in anc && Supported(anc, steps, facts, n, p)
    ensures Supported(anc2, steps2, facts, n, p)
  {
    if p in facts && Unthreatened(anc, steps, p, None, Some(n), {}) {
      UnthreatenedAlike(anc, anc2, steps, steps2, rs, p, None, Some(n), {}, {});
    } else {
      var m :| m in anc && m in steps && Precedes(anc, m, n) && p in steps[m].ens
        && Unthreatened(anc, steps, p, Some(m), Some(n), {});
      UnthreatenedAlike(anc, anc2, steps, steps2, rs, p, Some(m), Some(n), {}, {});
      assert Home(n) == n && n in anc2 && Precedes(anc2, m, n);
      assert m in anc2 && m in steps2 && p in steps2[m].ens;
    }
  }

  /** Nodes that all members precede, and all repaired nodes too, unless repaired
      themselves. */
  function BehindRepairs(anc: Table, members: seq<string>, repaired: set<string>): (r: set<string>) {
    set c | c in AfterTask(anc, members) && forall x :: x in repaired ==> x == c || Precedes(anc, x, c)
  }

  /** The code's cover test when the repairs of these nodes count as members. */
  predicate CoveredBehind(anc: Table, steps: Steps, members: seq<string>, repaired: set<string>, p: string) {
    exists m :: m in members && m in steps && p in steps[m].ens
                && Unthreatened(anc, steps, p, Some(m), None, BehindRepairs(anc, members, repaired))
  }

  /** The members in the repaired plan. */
  predicate MendedMembers(members: seq<string>, members2: seq<string>, repaired: set<string>) {
    && (forall id :: id in members ==> !IsRecoverId(id))
    && (forall id :: id in members2 ==> id in members || (IsRecoverId(id) && Home(id) in repaired))
    && (forall id :: id in members ==> id in members2)
    && forall x :: x in repaired ==> RecoverId(x) in members2
  }

  lemma {:induction false} AfterTaskAlike(anc: Table, anc2: Table, rs: set<string>, members: seq<string>,
                                          members2: seq<string>, repaired: set<string>, c: string)
    requires MendedTable(anc, anc2, rs) && MendedMembers(members, members2, repaired) && repaired <= rs
    requires (forall id :: id in members ==> id in anc) && c in anc
    ensures c in AfterTask(anc2, members2) <==> c in BehindRepairs(anc, members, repaired)
  {
    assert Home(c) == c && c in anc2;
    if c in AfterTask(anc2, members2) {
      forall x | x in members
        ensures Precedes(anc, x, c)
      {
        assert x in members2;
      }
      forall x | x in repaired
        ensures x == c || Precedes(anc, x, c)
      {
        assert RecoverId(x) in members2;
      }
    }
    if c in BehindRepairs(anc, members, repaired) {
      forall id | id in members2
        ensures Precedes(anc2, id, c)
      {
        if id !in members {
          assert id == RecoverId(Home(id));
        }
      }
    }
  }

  lemma {:induction false} CoveredAlike(anc: Table, anc2: Table, steps: Steps, steps2: Steps, rs: set<string>,
                                        members: seq<string>, members2: seq<string>, repaired: set<string>, p: string)
    requires MendedTable(anc, anc2, rs) && MendedSteps(steps, steps2, rs) && steps.Keys == anc.Keys
    requires MendedMembers(members, members2, repaired) && repaired <= rs && forall id :: id in members ==> id in anc
    ensures Covered(anc2, steps2, members2, p) <==> CoveredBehind(anc, steps, members, repaired, p)
  {
    var behind, after2 := BehindRepairs(anc, members, repaired), AfterTask(anc2, members2);
    forall c | c in anc
      ensures c in behind <==> c in after2
    {
      AfterTaskAlike(anc, anc2, rs, members, members2, repaired, c);
    }
    forall m | m in members
      ensures Unthreatened(anc2, steps2, p, Some(m), None, after2) <==>
        Unthreatened(anc, steps, p, Some(m), None, behind)
    {
      UnthreatenedAlike(anc, anc2, steps, steps2, rs, p, Some(m), None, behind, after2);
    }
    if Covered(anc2, steps2, members2, p) {
      var m :| m in members2 && m in steps2 && p in steps2[m].ens
        && Unthreatened(anc2, steps2, p, Some(m), None, after2);
      assert m in members;
    }
    if CoveredBehind(anc, steps, members, repaired, p) {
      var m :| m in members && m in steps && p in steps[m].ens && Unthreatened(anc, steps, p, Some(m), None, behind);
      assert m in members2 && m in steps2;
    }
  }

  // ---------------------------------------------- the nodes of both graphs

  /** A node of the plan, behind its repair if it has one. */
  function Mended(n: PlanNode, rs: Repairs): (r: PlanNode) {
    if n.id in rs then n.(after := n.after + [RecoverId(n.id)]) else n
  }

  lemma {:induction false} BlockIs(base: Plan, n: PlanNode, rs: Repairs)
    requires Plain(base) && Sound(base, rs) && !IsRecoverId(n.id)
    ensures Block(n, rs) ==
      if n.id in rs then [RecoveryNode(n.id, rs[n.id], n.after), Mended(n, rs)] else [Mended(n, rs)]
  {
    RecoverIdFacts(n.id);
    if n.id in rs {
      assert Block(RecoveryNode(n.id, rs[n.id], n.after), rs) == [RecoveryNode(n.id, rs[n.id], n.after)];
    }
  }

  /** Where the i-th node of the plan stands. */
  lemma {:induction false} StandsMended(full: Plan, base: Plan, rs: Repairs, i: nat) returns (j: nat)
    requires Plain(full) && Plain(base) && Sound(full, rs) && i < |base|
    ensures j < |Repaired(base, rs)| && Repaired(base, rs)[j] == Mended(base[i], rs)
    ensures base[i].id in rs ==>
      j > 0 && Repaired(base, rs)[j - 1] == RecoveryNode(base[i].id, rs[base[i].id], base[i].after)
  {
    BlockIs(full, base[0], rs);
    j := |Block(base[0], rs)| - 1;
    if i > 0 {
      var k := StandsMended(full, base[1..], rs, i - 1);
      j := |Block(base[0], rs)| + k;
    }
  }

  /** Which node of the plan the j-th node comes from. */
  lemma {:induction false} ComesFrom(full: Plan, base: Plan, rs: Repairs, j: nat) returns (i: nat)
    requires Plain(full) && Plain(base) && Sound(full, rs) && j < |Repaired(base, rs)|
    ensures i < |base|
    ensures Repaired(base, rs)[j] == Mended(base[i], rs)
      || (base[i].id in rs && Repaired(base, rs)[j] == RecoveryNode(base[i].id, rs[base[i].id], base[i].after))
  {
    BlockIs(full, base[0], rs);
    var b := |Block(base[0], rs)|;
    if j < b {
      i := 0;
    } else {
      i := ComesFrom(full, base[1..], rs, j - b);
      i := i + 1;
    }
  }

  type NodeTable = map<string, Node>

  function AfterMended(after: seq<string>, n: string, rs: Repairs): (r: seq<string>) {
    after + (if n in rs then [RecoverId(n)] else [])
  }

  function RepairNode(x: string, strategy: string, after: seq<string>, first: string): (r: Node) {
    Node(RecoverId(x), first, strategy, map[], after, None, "recovery")
  }

  predicate PlainNode(n: Node) {
    !IsRecoverId(n.id) && forall y :: y in n.after ==> !IsRecoverId(y)
  }

  /** A node of the plan in both tables, and its repair in the second. */
  predicate NodeMended(t: NodeTable, t2: NodeTable, rs: Repairs, first: string, n: string) {
    && n in t && n in t2 && t[n].id == n && PlainNode(t[n])
    && t2[n] == t[n].(after := AfterMended(t[n].after, n, rs))
    && (n in rs ==> RecoverId(n) in t2 && t2[RecoverId(n)] == RepairNode(n, rs[n], t[n].after, first))
  }

  predicate MendedKey(t: NodeTable, rs: Repairs, u: string) {
    u in t || (IsRecoverId(u) && Home(u) in rs)
  }

  /** Both node tables, over one first task. */
  ghost predicate MendedNodes(t: NodeTable, t2: NodeTable, rs: Repairs, first: string) {
    && rs.Keys <= t.Keys && (forall n :: n in t ==> NodeMended(t, t2, rs, first, n))
    && (forall u :: u in t2 <==> MendedKey(t, rs, u))
  }

  lemma {:induction false} PlanEntry(plan: Plan, first: string, i: nat)
    requires UniqueIds(ToNodes(plan, first)) && i < |plan|
    ensures plan[i].id in NodeMap(ToNodes(plan, first))
    ensures NodeMap(ToNodes(plan, first))[plan[i].id] == ToNode(plan[i], first)
  {
    LegalRuns.NodeMapAt(ToNodes(plan, first), i);
  }

  /** The table has every node of the plan under its id. */
  predicate Lists(t: NodeTable, plan: Plan, first: string) {
    forall i :: 0 <= i < |plan| ==> plan[i].id in t && t[plan[i].id] == ToNode(plan[i], first)
  }

  lemma {:induction false} PlanEntries(plan: Plan, first: string)
    requires UniqueIds(ToNodes(plan, first))
    ensures Lists(NodeMap(ToNodes(plan, first)), plan, first)
  {
    forall i | 0 <= i < |plan|
      ensures plan[i].id in NodeMap(ToNodes(plan, first))
      ensures NodeMap(ToNodes(plan, first))[plan[i].id] == ToNode(plan[i], first)
    {
      PlanEntry(plan, first, i);
    }
  }

  lemma {:induction false} UniqueNodes(base: Plan, rs: Repairs, first: string)
    requires BasePlan(base)
    ensures UniqueIds(ToNodes(base, first)) && UniqueIds(ToNodes(Repaired(base, rs), first))
  {
    RepairedOrdered(base, rs, {}, {});
    forall i, j | 0 <= i < j < |base|
      ensures base[i].id != base[j].id
    {
      OrderedAt(base, {}, j);
    }
    var plan := Repaired(base, rs);
    forall i, j | 0 <= i < j < |plan|
      ensures plan[i].id != plan[j].id
    {
      OrderedAt(plan, {}, j);
    }
  }

  lemma {:induction false} NodeShape(n: PlanNode, rs: Repairs, first: string)
    ensures ToNode(Mended(n, rs), first) == ToNode(n, first).(after := AfterMended(n.after, n.id, rs))
    ensures n.id in rs ==>
      ToNode(RecoveryNode(n.id, rs[n.id], n.after), first) == RepairNode(n.id, rs[n.id], n.after, first)
  {
    if n.id !in rs {
      assert AfterMended(n.after, n.id, rs) == n.after;
    }
  }

  lemma {:induction false} MendedAt(t: NodeTable, t2: NodeTable, rs: Repairs, first: string, n: PlanNode)
    requires NoRepairsIn(n) && n.id in t && t[n.id] == ToNode(n, first)
    requires n.id in t2 && t2[n.id] == ToNode(Mended(n, rs), first)
    requires n.id in rs ==>
      RecoverId(n.id) in t2 && t2[RecoverId(n.id)] == ToNode(RecoveryNode(n.id, rs[n.id], n.after), first)
    ensures NodeMended(t, t2, rs, first, n.id)
  {
    NodeShape(n, rs, first);
  }

  lemma {:induction false} PlaceMended(t: NodeTable, t2: NodeTable, base: Plan, plan: Plan, rs: Repairs, first: string,
                                       i: nat, j: nat)
    requires Lists(t, base, first) && Lists(t2, plan, first)
    requires i < |base| && NoRepairsIn(base[i]) && j < |plan| && plan[j] == Mended(base[i], rs)
    requires base[i].id in rs ==> j > 0 && plan[j - 1] == RecoveryNode(base[i].id, rs[base[i].id], base[i].after)
    ensures NodeMended(t, t2, rs, first, base[i].id)
  {
    assert plan[j].id == base[i].id;
    MendedAt(t, t2, rs, first, base[i]);
  }

  lemma {:induction false} EntryMended(base: Plan, rs: Repairs, first: string, i: nat)
    requires BasePlan(base) && Sound(base, rs) && i < |base|
    ensures NodeMended(NodeMap(ToNodes(base, first)), NodeMap(ToNodes(Repaired(base, rs), first)), rs, first,
                       base[i].id)
  {
    UniqueNodes(base, rs, first);
    PlanEntries(base, first);
    PlanEntries(Repaired(base, rs), first);
    var j := StandsMended(base, base, rs, i);
    PlaceMended(NodeMap(ToNodes(base, first)), NodeMap(ToNodes(Repaired(base, rs), first)), base, Repaired(base, rs),
                rs, first, i, j);
  }

  lemma {:induction false} KeyComesFrom(base: Plan, rs: Repairs, first: string, u: string)
    requires BasePlan(base) && Sound(base, rs) && u in NodeMap(ToNodes(Repaired(base, rs), first))
    ensures MendedKey(NodeMap(ToNodes(base, first)), rs, u)
  {
    var j := LegalRuns.NodeOf(ToNodes(Repaired(base, rs), first), u);
    var i := ComesFrom(base, base, rs, j);
    assert ToNodes(base, first)[i].id == base[i].id;
    RecoverIdFacts(base[i].id);
  }

  lemma {:induction false} KeyStays(t: NodeTable, t2: NodeTable, rs: Repairs, first: string, u: string)
    requires rs.Keys <= t.Keys && (forall n :: n in t ==> NodeMended(t, t2, rs, first, n)) && MendedKey(t, rs, u)
    ensures u in t2
  {
    if u in t {
      assert NodeMended(t, t2, rs, first, u);
    } else {
      assert NodeMended(t, t2, rs, first, Home(u));
      assert u == RecoverId(Home(u));
    }
  }

  lemma {:induction false} RepairedNodes(base: Plan, rs: Repairs, first: string)
    requires BasePlan(base) && Sound(base, rs)
    ensures MendedNodes(NodeMap(ToNodes(base, first)), NodeMap(ToNodes(Repaired(base, rs), first)), rs, first)
  {
    var t, t2 := NodeMap(ToNodes(base, first)), NodeMap(ToNodes(Repaired(base, rs), first));
    forall x | x in rs
      ensures x in t
    {
      var i :| 0 <= i < |base| && base[i].id == x;
      assert ToNodes(base, first)[i].id == x;
    }
    forall n | n in t
      ensures NodeMended(t, t2, rs, first, n)
    {
      var i := LegalRuns.NodeOf(ToNodes(base, first), n);
      EntryMended(base, rs, first, i);
    }
    forall u
      ensures u in t2 <==> MendedKey(t, rs, u)
    {
      if u in t2 {
        KeyComesFrom(base, rs, first, u);
      }
      if MendedKey(t, rs, u) {
        KeyStays(t, t2, rs, first, u);
      }
    }
  }

  function Afters(t: NodeTable): (r: Graph) {
    map n | n in t :: t[n].after
  }

  lemma {:induction false} MendedAfter(t: NodeTable, t2: NodeTable, rs: Repairs, first: string)
    requires MendedNodes(t, t2, rs, first)
    ensures Mends(Afters(t), Afters(t2), rs.Keys)
  {
    var a, b := Afters(t), Afters(t2);
    forall n | n in a
      ensures !IsRecoverId(n) && (forall y :: y in a[n] ==> !IsRecoverId(y)) && n in b
      ensures b[n] == a[n] + (if n in rs.Keys then [RecoverId(n)] else [])
    {
      assert NodeMended(t, t2, rs, first, n);
    }
    forall x | x in rs
      ensures RecoverId(x) in b && b[RecoverId(x)] == a[x]
    {
      assert NodeMended(t, t2, rs, first, x);
    }
    forall u
      ensures u in b <==> u in a || (IsRecoverId(u) && Home(u) in rs.Keys)
    {
      assert u in t2 <==> MendedKey(t, rs, u);
    }
  }

  predicate IsMember(t: NodeTable, task: string, id: string) {
    id in t && t[id].task == task
  }

  lemma {:induction false} MemberEntry(nodes: seq<Node>, task: string, id: string)
    requires UniqueIds(nodes)
    ensures id in MembersOf(nodes, task) <==> IsMember(NodeMap(nodes), task, id)
  {
    if id in NodeMap(nodes) {
      var i := LegalRuns.NodeOf(nodes, id);
    }
    if id in MembersOf(nodes, task) {
      var i :| 0 <= i < |nodes| && nodes[i].id == id && nodes[i].task == task;
      LegalRuns.NodeMapAt(nodes, i);
    }
  }

  lemma {:induction false} MemberMended(t: NodeTable, t2: NodeTable, rs: Repairs, first: string, task: string,
                                        u: string)
    requires MendedNodes(t, t2, rs, first)
    ensures IsMember(t2, task, u) <==>
      IsMember(t, task, u) || (IsRecoverId(u) && Home(u) in rs && task == first)
    ensures IsMember(t, task, u) ==> !IsRecoverId(u)
  {
    assert u in t2 <==> MendedKey(t, rs, u);
    if u in t {
      assert NodeMended(t, t2, rs, first, u);
    }
    if IsRecoverId(u) && Home(u) in rs {
      assert NodeMended(t, t2, rs, first, Home(u));
      assert u == RecoverId(Home(u));
    }
  }

  lemma {:induction false} MendedMembership(nodes: seq<Node>, nodes2: seq<Node>, rs: Repairs, first: string,
                                            task: string)
    requires UniqueIds(nodes) && UniqueIds(nodes2) && MendedNodes(NodeMap(nodes), NodeMap(nodes2), rs, first)
    ensures MendedMembers(MembersOf(nodes, task), MembersOf(nodes2, task), if task == first then rs.Keys else {})
    ensures forall id :: id in MembersOf(nodes, task) ==> id in NodeMap(nodes)
  {
    forall u
      ensures u in MembersOf(nodes, task) <==> IsMember(NodeMap(nodes), task, u)
      ensures u in MembersOf(nodes2, task) <==> IsMember(NodeMap(nodes2), task, u)
    {
      MemberEntry(nodes, task, u);
      MemberEntry(nodes2, task, u);
    }
    forall u {
      MemberMended(NodeMap(nodes), NodeMap(nodes2), rs, first, task, u);
    }
    forall x | x in rs {
      RecoverIdFacts(x);
    }
  }

  // -------------------------------------------------- records and contracts

  /** A record without arguments and contract. */
  predicate BareRecord(rec: Record) {
    rec.args == map[] && rec.needs == [] && rec.gives == [] && rec.clobbers == []
  }

  /** `records.setdefault(strategy, ...)` for every repair. */
  function WithStrategies(records: Records, rs: Repairs): (r: Records) {
    map s | s in records.Keys + rs.Values ::
      if s in records then records[s] else Record(s, map[], [], [], [], {})
  }

  /** A strategy is no skill with arguments or a contract. */
  predicate StrategiesBare(records: Records, rs: Repairs) {
    forall x :: x in rs && rs[x] in records ==> BareRecord(records[rs[x]])
  }

  predicate RecordsFit(records: Records, records2: Records, rs: Repairs) {
    && (forall s :: s in records ==> s in records2 && records2[s] == records[s])
    && (forall x :: x in rs ==> rs[x] in records2 && BareRecord(records2[rs[x]]))
  }

  lemma {:induction false} StrategiesFit(records: Records, rs: Repairs)
    requires StrategiesBare(records, rs)
    ensures RecordsFit(records, WithStrategies(records, rs), rs)
  {
    forall x | x in rs
      ensures rs[x] in rs.Values
    {
    }
  }

  /** A node of the repaired plan is a node of the plan, as far as its contract
      goes, or a bare repair. */
  predicate EntryFits(t: NodeTable, t2: NodeTable, records: Records, records2: Records, first: string, u: string) {
    && u in t2 && t2[u].id == u && t2[u].skill in records2
    && if u in t
       then && t[u].skill in records && records2[t2[u].skill] == records[t[u].skill]
            && t2[u] == t[u].(after := t2[u].after)
       else && IsRecoverId(u) && BareRecord(records2[t2[u].skill])
            && t2[u].args == map[] && t2[u].executor == None && t2[u].task == first
  }

  lemma {:induction false} EveryEntryFits(t: NodeTable, t2: NodeTable, records: Records, records2: Records,
                                          rs: Repairs, first: string, u: string)
    requires MendedNodes(t, t2, rs, first) && RecordsFit(records, records2, rs)
    requires (forall n :: n in t ==> t[n].skill in records) && u in t2
    ensures EntryFits(t, t2, records, records2, first, u)
  {
    assert MendedKey(t, rs, u);
    if u in t {
      assert NodeMended(t, t2, rs, first, u);
    } else {
      assert NodeMended(t, t2, rs, first, Home(u));
      assert u == RecoverId(Home(u));
    }
  }

  lemma {:induction false} BareStep(n: Node, rec: Record)
    requires BareRecord(rec)
    ensures StepOf(n, rec) == Some(Step([], [], {}))
  {
    assert InstantiateAll([], Env(n)) == Some([]) && Elements([]) == {};
  }

  lemma {:induction false} EntryStep(t: NodeTable, t2: NodeTable, records: Records, records2: Records, first: string,
                                     u: string)
    requires EntryFits(t, t2, records, records2, first, u)
    ensures u in t ==> StepOf(t2[u], records2[t2[u].skill]) == StepOf(t[u], records[t[u].skill])
    ensures u !in t ==> StepOf(t2[u], records2[t2[u].skill]) == Some(Step([], [], {}))
  {
    if u in t {
      assert Env(t2[u]) == Env(t[u]);
    } else {
      BareStep(t2[u], records2[t2[u].skill]);
    }
  }

  /** All entries fit, and the tables are those of the two node lists. */
  ghost predicate Fit(nodes: seq<Node>, nodes2: seq<Node>, records: Records, records2: Records, rs: Repairs,
                      first: string) {
    && UniqueIds(nodes) && UniqueIds(nodes2) && MendedNodes(NodeMap(nodes), NodeMap(nodes2), rs, first)
    && forall u :: u in NodeMap(nodes2) ==>
         EntryFits(NodeMap(nodes), NodeMap(nodes2), records, records2, first, u)
  }

  lemma {:induction false} SkillIn(nodes: seq<Node>, records: Records, n: string)
    requires SkillsKnown(nodes, records) && n in NodeMap(nodes)
    ensures NodeMap(nodes)[n].skill in records
  {
    var i := LegalRuns.NodeOf(nodes, n);
  }

  lemma {:induction false} ListFits(base: Plan, rs: Repairs, first: string, records: Records)
    requires BasePlan(base) && Sound(base, rs) && StrategiesBare(records, rs)
    requires SkillsKnown(ToNodes(base, first), records)
    ensures Fit(ToNodes(base, first), ToNodes(Repaired(base, rs), first), records, WithStrategies(records, rs), rs,
                first)
  {
    var nodes, nodes2 := ToNodes(base, first), ToNodes(Repaired(base, rs), first);
    UniqueNodes(base, rs, first);
    RepairedNodes(base, rs, first);
    StrategiesFit(records, rs);
    forall n | n in NodeMap(nodes)
      ensures NodeMap(nodes)[n].skill in records
    {
      SkillIn(nodes, records, n);
    }
    forall u | u in NodeMap(nodes2)
      ensures EntryFits(NodeMap(nodes), NodeMap(nodes2), records, WithStrategies(records, rs), first, u)
    {
      EveryEntryFits(NodeMap(nodes), NodeMap(nodes2), records, WithStrategies(records, rs), rs, first, u);
    }
  }

  lemma {:induction false} FitAt(nodes: seq<Node>, nodes2: seq<Node>, records: Records, records2: Records,
                                 rs: Repairs, first: string, j: nat)
    requires Fit(nodes, nodes2, records, records2, rs, first) && j < |nodes2|
    ensures nodes2[j] == NodeMap(nodes2)[nodes2[j].id]
    ensures EntryFits(NodeMap(nodes), NodeMap(nodes2), records, records2, first, nodes2[j].id)
  {
    LegalRuns.NodeMapAt(nodes2, j);
  }

  lemma {:induction false} ParsesAt(nodes: seq<Node>, records: Records, n: string)
    requires SkillsKnown(nodes, records) && ContractsParse(nodes, records) && n in NodeMap(nodes)
    ensures NodeMap(nodes)[n].skill in records
    ensures StepOf(NodeMap(nodes)[n], records[NodeMap(nodes)[n].skill]).Some?
    ensures StepsOf(nodes, records)[n] == StepOf(NodeMap(nodes)[n], records[NodeMap(nodes)[n].skill]).value
  {
    var i := LegalRuns.NodeOf(nodes, n);
  }

  lemma {:induction false} ContractsStillParse(nodes: seq<Node>, nodes2: seq<Node>, records: Records,
                                               records2: Records, rs: Repairs, first: string)
    requires Fit(nodes, nodes2, records, records2, rs, first)
    requires SkillsKnown(nodes, records) && ContractsParse(nodes, records)
    ensures SkillsKnown(nodes2, records2) && ContractsParse(nodes2, records2)
  {
    forall j | 0 <= j < |nodes2|
      ensures nodes2[j].skill in records2 && StepOf(nodes2[j], records2[nodes2[j].skill]).Some?
    {
      FitAt(nodes, nodes2, records, records2, rs, first, j);
      EntryStep(NodeMap(nodes), NodeMap(nodes2), records, records2, first, nodes2[j].id);
      if nodes2[j].id in NodeMap(nodes) {
        ParsesAt(nodes, records, nodes2[j].id);
      }
    }
  }

  lemma {:induction false} StepsMended(nodes: seq<Node>, nodes2: seq<Node>, records: Records, records2: Records,
                                       rs: Repairs, first: string)
    requires Fit(nodes, nodes2, records, records2, rs, first)
    requires SkillsKnown(nodes, records) && ContractsParse(nodes, records)
    requires SkillsKnown(nodes2, records2) && ContractsParse(nodes2, records2)
    ensures MendedSteps(StepsOf(nodes, records), StepsOf(nodes2, records2), rs.Keys)
  {
    var t, t2, steps, steps2 := NodeMap(nodes), NodeMap(nodes2), StepsOf(nodes, records), StepsOf(nodes2, records2);
    forall u | u in t2
      ensures if u in t then steps2[u] == steps[u] else steps2[u] == Step([], [], {})
    {
      assert EntryFits(t, t2, records, records2, first, u);
      EntryStep(t, t2, records, records2, first, u);
      ParsesAt(nodes2, records2, u);
      if u in t {
        ParsesAt(nodes, records, u);
      }
    }
    forall n | n in t
      ensures !IsRecoverId(n) && n in t2
    {
      assert NodeMended(t, t2, rs, first, n);
    }
    forall u
      ensures u in steps2 <==> u in steps || (IsRecoverId(u) && Home(u) in rs.Keys)
    {
      assert u in t2 <==> MendedKey(t, rs, u);
    }
  }

  // -------------------------------------------------- the second phase

  lemma {:induction false} ReadableStill(anc: Table, anc2: Table, steps: Steps, steps2: Steps, rs: set<string>,
                                         u: string)
    requires MendedTable(anc, anc2, rs) && MendedSteps(steps, steps2, rs) && steps.Keys == anc.Keys
    requires u in anc2 && Readable(anc, steps, Home(u))
    ensures Readable(anc2, steps2, u)
  {
    forall m | m in anc2[u] && m in steps2
      ensures forall i :: 0 <= i < |steps2[m].ens| ==> ParseText(steps2[m].ens[i]).Some?
    {
      if m in steps {
        assert Precedes(anc2, m, u) && Precedes(anc, m, Home(u));
      } else {
        assert IsRecoverId(m);
      }
    }
  }

  lemma {:induction false} ProducedStill(anc: Table, anc2: Table, steps: Steps, steps2: Steps, rs: set<string>,
                                         n: string, v: string)
    requires MendedTable(anc, anc2, rs) && MendedSteps(steps, steps2, rs) && steps.Keys == anc.Keys
    requires n in anc && Readable(anc, steps, n) && Readable(anc2, steps2, n) && Produced(anc, steps, n, v)
    ensures Produced(anc2, steps2, n, v)
  {
    var m :| m in anc[n] && m in steps &&
      exists i :: 0 <= i < |steps[m].ens| && v in ParseText(steps[m].ens[i]).value.args;
    assert Home(n) == n && Precedes(anc, m, n) && m in anc && n in anc2;
    assert Precedes(anc2, m, n);
    assert m in steps2 && steps2[m] == steps[m];
  }

  lemma {:induction false} TypedStill(t: NodeTable, t2: NodeTable, records: Records, records2: Records,
                                      tasks: seq<Task>, u: string)
    requires |tasks| > 0 && EntryFits(t, t2, records, records2, tasks[0].id, u)
    requires u in t ==> NodeTyped(t[u], records[t[u].skill], tasks) && NodeBound(t[u], records[t[u].skill])
    ensures NodeTyped(t2[u], records2[t2[u].skill], tasks) && NodeBound(t2[u], records2[t2[u].skill])
  {
  }

  lemma {:induction false} GroundedStill(t: NodeTable, t2: NodeTable, records: Records, records2: Records,
                                         first: string, anc: Table, anc2: Table, steps: Steps, steps2: Steps,
                                         rs: set<string>, objects: set<string>, u: string)
    requires MendedTable(anc, anc2, rs) && MendedSteps(steps, steps2, rs) && steps.Keys == anc.Keys == t.Keys
    requires EntryFits(t, t2, records, records2, first, u) && Readable(anc2, steps2, u)
    requires u in t ==> t[u].id == u && Readable(anc, steps, u)
                        && NodeGrounded(t[u], records[t[u].skill], anc, steps, objects)
    ensures NodeGrounded(t2[u], records2[t2[u].skill], anc2, steps2, objects)
  {
    var n, rec := t2[u], records2[t2[u].skill];
    forall k | k in n.args && k in rec.args && rec.args[k] == "entity"
      ensures n.args[k].text in objects || Produced(anc2, steps2, u, n.args[k].text)
    {
      if n.args[k].text !in objects {
        ProducedStill(anc, anc2, steps, steps2, rs, u, n.args[k].text);
      }
    }
  }

  lemma {:induction false} NodeSupportedStill(n: Node, n2: Node, anc: Table, anc2: Table, steps: Steps,
                                              steps2: Steps, rs: set<string>, facts: State)
    requires MendedTable(anc, anc2, rs) && MendedSteps(steps, steps2, rs) && steps.Keys == anc.Keys
    requires n2.id in steps2 && (n2.id in steps ==> n.id == n2.id && NodeSupported(n, anc, steps, facts))
    ensures NodeSupported(n2, anc2, steps2, facts)
  {
    forall i | 0 <= i < |steps2[n2.id].req|
      ensures Supported(anc2, steps2, facts, n2.id, steps2[n2.id].req[i])
    {
      if n2.id in steps {
        SupportedStill(anc, anc2, steps, steps2, rs, facts, n2.id, steps[n2.id].req[i]);
      }
    }
  }

  /** The goals of the first task, to which the repairs are counted, hold up. */
  predicate FirstTaskCovered(g: ExecutionGraph, anc: Table, steps: Steps, repaired: set<string>)
    requires |g.tasks| > 0
  {
    forall i, k :: 0 <= i < |g.tasks| && g.tasks[i].id == g.tasks[0].id && 0 <= k < |g.tasks[i].goal| ==>
      CoveredBehind(anc, steps, MembersOf(g.nodes, g.tasks[i].id), repaired, g.tasks[i].goal[k])
  }

  lemma {:induction false} NoneBehind(anc: Table, steps: Steps, members: seq<string>, p: string)
    ensures CoveredBehind(anc, steps, members, {}, p) <==> Covered(anc, steps, members, p)
  {
    assert BehindRepairs(anc, members, {}) == AfterTask(anc, members);
  }

  lemma {:induction false} GoalAlike(g: ExecutionGraph, g2: ExecutionGraph, rs: Repairs, anc: Table, anc2: Table,
                                     steps: Steps, steps2: Steps, i: nat, p: string)
    requires g2.tasks == g.tasks && i < |g.tasks| && UniqueIds(g.nodes) && UniqueIds(g2.nodes)
    requires MendedNodes(NodeMap(g.nodes), NodeMap(g2.nodes), rs, g.tasks[0].id)
    requires MendedTable(anc, anc2, rs.Keys) && MendedSteps(steps, steps2, rs.Keys)
    requires steps.Keys == anc.Keys == NodeMap(g.nodes).Keys
    ensures var task := g.tasks[i].id;
            Covered(anc2, steps2, MembersOf(g2.nodes, task), p) <==>
              if task == g.tasks[0].id then CoveredBehind(anc, steps, MembersOf(g.nodes, task), rs.Keys, p)
              else Covered(anc, steps, MembersOf(g.nodes, task), p)
  {
    var task := g.tasks[i].id;
    MendedMembership(g.nodes, g2.nodes, rs, g.tasks[0].id, task);
    CoveredAlike(anc, anc2, steps, steps2, rs.Keys, MembersOf(g.nodes, task), MembersOf(g2.nodes, task),
                 if task == g.tasks[0].id then rs.Keys else {}, p);
    NoneBehind(anc, steps, MembersOf(g.nodes, task), p);
  }

  lemma {:induction false} CoverAlike(g: ExecutionGraph, g2: ExecutionGraph, rs: Repairs, anc: Table, anc2: Table,
                                      steps: Steps, steps2: Steps)
    requires g2.tasks == g.tasks && |g.tasks| > 0 && UniqueIds(g.nodes) && UniqueIds(g2.nodes)
    requires MendedNodes(NodeMap(g.nodes), NodeMap(g2.nodes), rs, g.tasks[0].id)
    requires MendedTable(anc, anc2, rs.Keys) && MendedSteps(steps, steps2, rs.Keys)
    requires steps.Keys == anc.Keys == NodeMap(g.nodes).Keys && AllCovered(g, anc, steps)
    ensures AllCovered(g2, anc2, steps2) <==> FirstTaskCovered(g, anc, steps, rs.Keys)
  {
    forall i, k | 0 <= i < |g.tasks| && 0 <= k < |g.tasks[i].goal|
      ensures var task, p := g.tasks[i].id, g.tasks[i].goal[k];
              Covered(anc2, steps2, MembersOf(g2.nodes, task), p) <==>
                (task == g.tasks[0].id ==> CoveredBehind(anc, steps, MembersOf(g.nodes, task), rs.Keys, p))
    {
      GoalAlike(g, g2, rs, anc, anc2, steps, steps2, i, g.tasks[i].goal[k]);
      assert TaskCovered(g.tasks[i], g.nodes, anc, steps);
    }
    if FirstTaskCovered(g, anc, steps, rs.Keys) {
      forall i | 0 <= i < |g2.tasks|
        ensures TaskCovered(g2.tasks[i], g2.nodes, anc2, steps2)
      {
      }
    }
    if AllCovered(g2, anc2, steps2) {
      forall i, k | 0 <= i < |g.tasks| && g.tasks[i].id == g.tasks[0].id && 0 <= k < |g.tasks[i].goal|
        ensures CoveredBehind(anc, steps, MembersOf(g.nodes, g.tasks[i].id), rs.Keys, g.tasks[i].goal[k])
      {
        assert TaskCovered(g2.tasks[i], g2.nodes, anc2, steps2);
      }
    }
  }

  lemma {:induction false} StillWellOrdered(a: Graph, b: Graph, rs: set<string>)
    requires Mends(a, b, rs) && Closed(a) && Acyclic(a)
    ensures Closed(b) && Acyclic(b)
  {
    forall u, v | Edge(b, u, v)
      ensures v in b
    {
      MendedEdge(a, b, rs, u, v);
    }
    forall u
      ensures !Reaches(b, u, u)
    {
      if Reaches(b, u, u) {
        var y := FirstStep(b, u, u);
        MendedEdge(a, b, rs, u, y);
        if !IsRecoverId(u) {
          MendedReaches(a, b, rs, u, u);
        } else {
          assert u == RecoverId(Home(u)) && Edge(a, Home(u), y);
          RepairReached(a, b, rs, y, Home(u));
          EdgeReaches(a, Home(u), y);
          if y != Home(u) {
            ReachesTransitive(a, Home(u), y, Home(u));
          }
        }
      }
    }
  }

  lemma {:induction false} ContractedAlike(g: ExecutionGraph, g2: ExecutionGraph, records: Records, records2: Records,
                                           rs: Repairs, anc: Table, anc2: Table, steps: Steps, steps2: Steps,
                                           facts: State, objects: set<string>)
    requires g2.tasks == g.tasks && |g.tasks| > 0
    requires Fit(g.nodes, g2.nodes, records, records2, rs, g.tasks[0].id)
    requires SkillsKnown(g.nodes, records) && SkillsKnown(g2.nodes, records2)
    requires MendedTable(anc, anc2, rs.Keys) && MendedSteps(steps, steps2, rs.Keys)
    requires steps.Keys == anc.Keys == NodeMap(g.nodes).Keys
    requires AllReadable(g, anc, steps) && AllReadable(g2, anc2, steps2)
    requires Contracted(g, records, anc, steps, facts, objects)
    ensures Contracted(g2, records2, anc2, steps2, facts, objects) <==> FirstTaskCovered(g, anc, steps, rs.Keys)
  {
    var t, t2, first := NodeMap(g.nodes), NodeMap(g2.nodes), g.tasks[0].id;
    forall j | 0 <= j < |g2.nodes|
      ensures NodeTyped(g2.nodes[j], records2[g2.nodes[j].skill], g2.tasks)
      ensures NodeBound(g2.nodes[j], records2[g2.nodes[j].skill])
      ensures NodeGrounded(g2.nodes[j], records2[g2.nodes[j].skill], anc2, steps2, objects)
      ensures NodeSupported(g2.nodes[j], anc2, steps2, facts)
    {
      SecondPhaseAt(g, g2, records, records2, rs, anc, anc2, steps, steps2, facts, objects, j);
    }
    CoverAlike(g, g2, rs, anc, anc2, steps, steps2);
  }

  lemma {:induction false} SecondPhaseAt(g: ExecutionGraph, g2: ExecutionGraph, records: Records, records2: Records,
                                         rs: Repairs, anc: Table, anc2: Table, steps: Steps, steps2: Steps,
                                         facts: State, objects: set<string>, j: nat)
    requires g2.tasks == g.tasks && |g.tasks| > 0 && j < |g2.nodes|
    requires Fit(g.nodes, g2.nodes, records, records2, rs, g.tasks[0].id)
    requires SkillsKnown(g.nodes, records) && SkillsKnown(g2.nodes, records2)
    requires MendedTable(anc, anc2, rs.Keys) && MendedSteps(steps, steps2, rs.Keys)
    requires steps.Keys == anc.Keys == NodeMap(g.nodes).Keys
    requires AllReadable(g, anc, steps) && AllReadable(g2, anc2, steps2)
    requires AllTyped(g, records) && AllBound(g, records) && AllGrounded(g, records, anc, steps, objects)
    requires AllSupported(g, anc, steps, facts)
    ensures var n := g2.nodes[j];
            && NodeTyped(n, records2[n.skill], g2.tasks) && NodeBound(n, records2[n.skill])
            && NodeGrounded(n, records2[n.skill], anc2, steps2, objects) && NodeSupported(n, anc2, steps2, facts)
  {
    var t, t2, u, first := NodeMap(g.nodes), NodeMap(g2.nodes), g2.nodes[j].id, g.tasks[0].id;
    FitAt(g.nodes, g2.nodes, records, records2, rs, first, j);
    var n := g2.nodes[j];
    if u in t {
      var i := LegalRuns.NodeOf(g.nodes, u);
      n := g.nodes[i];
      assert NodeTyped(n, records[n.skill], g.tasks) && NodeBound(n, records[n.skill]);
      assert NodeGrounded(n, records[n.skill], anc, steps, objects) && NodeSupported(n, anc, steps, facts);
    }
    TypedStill(t, t2, records, records2, g.tasks, u);
    GroundedStill(t, t2, records, records2, first, anc, anc2, steps, steps2, rs.Keys, objects, u);
    NodeSupportedStill(n, g2.nodes[j], anc, anc2, steps, steps2, rs.Keys, facts);
  }

  lemma {:induction false} ReadableAll(g: ExecutionGraph, g2: ExecutionGraph, rs: set<string>, anc: Table, anc2: Table,
                                       steps: Steps, steps2: Steps)
    requires MendedTable(anc, anc2, rs) && MendedSteps(steps, steps2, rs)
    requires steps.Keys == anc.Keys == NodeMap(g.nodes).Keys && steps2.Keys == NodeMap(g2.nodes).Keys
    requires AllReadable(g, anc, steps)
    ensures AllReadable(g2, anc2, steps2)
  {
    forall j | 0 <= j < |g2.nodes|
      ensures g2.nodes[j].id in steps2 && Readable(anc2, steps2, g2.nodes[j].id)
    {
      var u := g2.nodes[j].id;
      var h := if u in steps then u else Home(u);
      var i := LegalRuns.NodeOf(g.nodes, h);
      assert Readable(anc, steps, g.nodes[i].id);
      ReadableStill(anc, anc2, steps, steps2, rs, u);
    }
  }

  lemma {:induction false} TablesMended(g: ExecutionGraph, g2: ExecutionGraph, records: Records, records2: Records,
                                        rs: Repairs)
    requires g2.tasks == g.tasks && |g.tasks| > 0 && WellOrdered(g, records)
    requires Fit(g.nodes, g2.nodes, records, records2, rs, g.tasks[0].id) && ContractsParse(g.nodes, records)
    ensures WellOrdered(g2, records2) && ContractsParse(g2.nodes, records2)
    ensures MendedTable(Closure(AfterGraph(g.nodes)), Closure(AfterGraph(g2.nodes)), rs.Keys)
    ensures MendedSteps(StepsOf(g.nodes, records), StepsOf(g2.nodes, records2), rs.Keys)
  {
    var t, t2, first := NodeMap(g.nodes), NodeMap(g2.nodes), g.tasks[0].id;
    MendedAfter(t, t2, rs, first);
    assert Afters(t) == AfterGraph(g.nodes) && Afters(t2) == AfterGraph(g2.nodes);
    MendedClosure(Afters(t), Afters(t2), rs.Keys);
    StillWellOrdered(Afters(t), Afters(t2), rs.Keys);
    ContractsStillParse(g.nodes, g2.nodes, records, records2, rs, first);
    StepsMended(g.nodes, g2.nodes, records, records2, rs, first);
  }

  /** A legal plan with repairs of some of its nodes is legal exactly when the goals
      of its first task are still covered. */
  lemma {:induction false} RepairedLegalExactly(base: Plan, rs: Repairs, tasks: seq<Task>, records: Records,
                                                facts: seq<Ref>, objects: set<string>)
    requires BasePlan(base) && Sound(base, rs) && StrategiesBare(records, rs)
    requires Legal(ToGraph(base, tasks), records, facts, objects)
    ensures Legal(ToGraph(Repaired(base, rs), tasks), WithStrategies(records, rs), facts, objects) <==>
      FirstTaskCovered(ToGraph(base, tasks), Closure(AfterGraph(ToGraph(base, tasks).nodes)),
                       StepsOf(ToGraph(base, tasks).nodes, records), rs.Keys)
  {
    var g, g2, records2 := ToGraph(base, tasks), ToGraph(Repaired(base, rs), tasks), WithStrategies(records, rs);
    ListFits(base, rs, g.tasks[0].id, records);
    TablesMended(g, g2, records, records2, rs);
    var anc, anc2 := Closure(AfterGraph(g.nodes)), Closure(AfterGraph(g2.nodes));
    var steps, steps2 := StepsOf(g.nodes, records), StepsOf(g2.nodes, records2);
    ReadableAll(g, g2, rs.Keys, anc, anc2, steps, steps2);
    ContractedAlike(g, g2, records, records2, rs, anc, anc2, steps, steps2, FactSet(facts), objects);
  }

  predicate NoFirstGoal(tasks: seq<Task>) {
    forall i :: 0 <= i < |TasksOf(tasks)| && TasksOf(tasks)[i].id == TasksOf(tasks)[0].id ==>
      TasksOf(tasks)[i].goal == []
  }

  /** So it is whenever the first task has no goal, in particular when no task is declared. */
  lemma {:induction false} GoalFreeStaysLegal(base: Plan, rs: Repairs, tasks: seq<Task>, records: Records,
                                              facts: seq<Ref>, objects: set<string>)
    requires BasePlan(base) && Sound(base, rs) && StrategiesBare(records, rs) && NoFirstGoal(tasks)
    requires Legal(ToGraph(base, tasks), records, facts, objects)
    ensures Legal(ToGraph(Repaired(base, rs), tasks), WithStrategies(records, rs), facts, objects)
  {
    RepairedLegalExactly(base, rs, tasks, records, facts, objects);
  }

  lemma {:induction false} OwnRepairsCovered(g: ExecutionGraph, anc: Table, steps: Steps, repaired: set<string>)
    requires |g.tasks| > 0 && AllCovered(g, anc, steps)
    requires forall x :: x in repaired ==> x in MembersOf(g.nodes, g.tasks[0].id)
    ensures FirstTaskCovered(g, anc, steps, repaired)
  {
    var members := MembersOf(g.nodes, g.tasks[0].id);
    assert BehindRepairs(anc, members, repaired) == AfterTask(anc, members);
    forall i, k | 0 <= i < |g.tasks| && g.tasks[i].id == g.tasks[0].id && 0 <= k < |g.tasks[i].goal|
      ensures CoveredBehind(anc, steps, members, repaired, g.tasks[i].goal[k])
    {
      assert TaskCovered(g.tasks[i], g.nodes, anc, steps);
      assert Covered(anc, steps, members, g.tasks[i].goal[k]);
    }
  }

  /** The repaired nodes all belong to the first task. */
  predicate RepairsFirst(base: Plan, rs: Repairs, first: string) {
    forall i :: 0 <= i < |base| && base[i].id in rs ==> base[i].task.None? || base[i].task.value == first
  }

  lemma {:induction false} FirstTaskMembers(base: Plan, rs: Repairs, first: string, x: string)
    requires Sound(base, rs) && RepairsFirst(base, rs, first) && x in rs
    ensures x in MembersOf(ToNodes(base, first), first)
  {
    var i :| 0 <= i < |base| && base[i].id == x;
    var n := ToNodes(base, first)[i];
    assert n.id == x && n.task == first;
  }

  /** And whenever every repaired node belongs to the first task. */
  lemma {:induction false} OwnRepairsStayLegal(base: Plan, rs: Repairs, tasks: seq<Task>, records: Records,
                                               facts: seq<Ref>, objects: set<string>)
    requires BasePlan(base) && Sound(base, rs) && StrategiesBare(records, rs)
    requires Legal(ToGraph(base, tasks), records, facts, objects)
    requires RepairsFirst(base, rs, TasksOf(tasks)[0].id)
    ensures Legal(ToGraph(Repaired(base, rs), tasks), WithStrategies(records, rs), facts, objects)
  {
    var g := ToGraph(base, tasks);
    RepairedLegalExactly(base, rs, tasks, records, facts, objects);
    forall x | x in rs
      ensures x in MembersOf(g.nodes, g.tasks[0].id)
    {
      FirstTaskMembers(base, rs, g.tasks[0].id, x);
    }
    OwnRepairsCovered(g, Closure(AfterGraph(g.nodes)), StepsOf(g.nodes, records), rs.Keys);
  }

  // --------------------------------- a repair that makes a legal plan illegal

  /** Of the first task, `a` ensures the goal; of the second, `c` clobbers it after
      `a`, and `x` runs at any time. */
  datatype Trio = Trio(a: string, c: string, x: string)

  predicate Apart(w: Trio) {
    w.a != w.c && w.a != w.x && w.c != w.x && !IsRecoverId(w.a) && !IsRecoverId(w.c) && !IsRecoverId(w.x)
  }

  /** Every node has a skill of its own name. */
  function TrioPlan(w: Trio, first: string, second: string): (r: Plan)
    ensures |r| == 3 && r[0] == PlanNode(w.a, w.a, map[], [], Some(first), None, None)
    ensures r[1] == PlanNode(w.c, w.c, map[], [w.a], Some(second), None, None)
    ensures r[2] == PlanNode(w.x, w.x, map[], [], Some(second), None, None)
  {
    [PlanNode(w.a, w.a, map[], [], Some(first), None, None), PlanNode(w.c, w.c, map[], [w.a], Some(second), None, None),
     PlanNode(w.x, w.x, map[], [], Some(second), None, None)]
  }

  function TrioTasks(first: string, second: string, q: string): (r: seq<Task>) {
    [Task(first, [LegalRuns.Printed(q)]), Task(second, [])]
  }

  function TrioRecords(w: Trio, q: string): (r: Records) {
    map[w.a := Record(w.a, map[], [], Marked(q, true), [], {}), w.c := Record(w.c, map[], [], [], Marked(q, true), {}),
        w.x := Record(w.x, map[], [], [], [], {})]
  }

  function Marked(q: string, yes: bool): (r: seq<Ref>) {
    if yes then [LegalRuns.Bare(q)] else []
  }

  predicate TrioSteps(w: Trio, steps: Steps, p: string) {
    && steps.Keys == {w.a, w.c, w.x} && steps[w.a] == Step([], [p], {}) && steps[w.c] == Step([], [], {p})
    && steps[w.x] == Step([], [], {})
  }

  predicate TrioTable(w: Trio, anc: Table) {
    anc.Keys == {w.a, w.c, w.x} && anc[w.a] == {} && anc[w.c] == {w.a} && anc[w.x] == {}
  }

  predicate TrioAfter(w: Trio, after: Graph) {
    after.Keys == {w.a, w.c, w.x} && after[w.a] == [] && after[w.c] == [w.a] && after[w.x] == []
  }

  lemma {:induction false} TrioIsBase(w: Trio, first: string, second: string)
    requires Apart(w)
    ensures BasePlan(TrioPlan(w, first, second))
  {
    var p := TrioPlan(w, first, second);
    assert p[1..] == [p[1], p[2]] && [p[1], p[2]][1..] == [p[2]] && [p[2]][1..] == [];
    assert Elements([w.a]) == {w.a} && Elements([]) == {};
    assert Ordered([p[2]], {w.a} + {w.c});
    assert Ordered([p[1], p[2]], {} + {w.a});
  }

  lemma {:induction false} ThreeKeys(p: Plan, first: string)
    requires |p| == 3
    ensures NodeMap(ToNodes(p, first)).Keys == {p[0].id, p[1].id, p[2].id}
  {
    var nodes := ToNodes(p, first);
    assert nodes[0].id == p[0].id && nodes[1].id == p[1].id && nodes[2].id == p[2].id;
    forall id | id in NodeMap(nodes)
      ensures id in {p[0].id, p[1].id, p[2].id}
    {
      var i := LegalRuns.NodeOf(nodes, id);
    }
  }

  lemma {:induction false} TrioGraph(w: Trio, first: string, second: string)
    requires Apart(w) && UniqueIds(ToNodes(TrioPlan(w, first, second), first))
    ensures TrioAfter(w, AfterGraph(ToNodes(TrioPlan(w, first, second), first)))
  {
    var p := TrioPlan(w, first, second);
    ThreeKeys(p, first);
    PlanEntries(p, first);
    assert p[0].id == w.a && p[1].id == w.c && p[2].id == w.x;
  }

  lemma {:induction false} TrioClosure(w: Trio, after: Graph)
    requires Apart(w) && TrioAfter(w, after)
    ensures Closed(after) && Acyclic(after) && TrioTable(w, Closure(after))
  {
    NoneReach(after, w.a);
    NoneReach(after, w.x);
    assert Edge(after, w.c, w.a);
    EdgeReaches(after, w.c, w.a);
    forall y | Reaches(after, w.c, y)
      ensures y == w.a
    {
      var z := FirstStep(after, w.c, y);
    }
    forall u
      ensures !Reaches(after, u, u)
    {
      if Reaches(after, u, u) {
        var y := FirstStep(after, u, u);
      }
    }
    assert Closure(after)[w.a] == {} && Closure(after)[w.x] == {} && Closure(after)[w.c] == {w.a};
  }

  lemma {:induction false} MarkedStep(n: Node, id: string, q: string, gives: bool, clobbers: bool)
    ensures StepOf(n, Record(id, map[], [], Marked(q, gives), Marked(q, clobbers), {})) ==
      Some(Step([], if gives then [LegalRuns.Printed(q)] else [], if clobbers then {LegalRuns.Printed(q)} else {}))
  {
    LegalRuns.BareInstance(q, Env(n));
    assert InstantiateAll([], Env(n)) == Some([]);
    assert Elements([LegalRuns.Printed(q)]) == {LegalRuns.Printed(q)} && Elements([]) == {};
  }

  lemma {:induction false} TrioParses(w: Trio, nodes: seq<Node>, records: Records, p: string)
    requires |nodes| == 3 && w.a in records && w.c in records && w.x in records
    requires nodes[0].skill == w.a && nodes[1].skill == w.c && nodes[2].skill == w.x
    requires StepOf(nodes[0], records[w.a]) == Some(Step([], [p], {}))
    requires StepOf(nodes[1], records[w.c]) == Some(Step([], [], {p}))
    requires StepOf(nodes[2], records[w.x]) == Some(Step([], [], {}))
    ensures SkillsKnown(nodes, records) && ContractsParse(nodes, records)
  {
    forall i | 0 <= i < |nodes|
      ensures nodes[i].skill in records && StepOf(nodes[i], records[nodes[i].skill]).Some?
    {
      assert i == 0 || i == 1 || i == 2;
    }
  }

  lemma {:induction false} TrioStepsAre(w: Trio, records: Records, m: Node, n: Node, o: Node, q: string)
    requires Apart(w) && records == TrioRecords(w, q)
    ensures StepOf(m, records[w.a]) == Some(Step([], [LegalRuns.Printed(q)], {}))
    ensures StepOf(n, records[w.c]) == Some(Step([], [], {LegalRuns.Printed(q)}))
    ensures StepOf(o, records[w.x]) == Some(Step([], [], {}))
  {
    assert records[w.a] == Record(w.a, map[], [], Marked(q, true), Marked(q, false), {});
    assert records[w.c] == Record(w.c, map[], [], Marked(q, false), Marked(q, true), {});
    assert records[w.x] == Record(w.x, map[], [], Marked(q, false), Marked(q, false), {});
    MarkedStep(m, w.a, q, true, false);
    MarkedStep(n, w.c, q, false, true);
    MarkedStep(o, w.x, q, false, false);
  }

  lemma {:induction false} StepAt(nodes: seq<Node>, records: Records, i: nat)
    requires UniqueIds(nodes) && SkillsKnown(nodes, records) && ContractsParse(nodes, records) && i < |nodes|
    ensures nodes[i].id in StepsOf(nodes, records)
    ensures StepOf(nodes[i], records[nodes[i].skill]) == Some(StepsOf(nodes, records)[nodes[i].id])
  {
    LegalRuns.NodeMapAt(nodes, i);
  }

  lemma {:induction false} StepsAt(w: Trio, nodes: seq<Node>, records: Records, p: string)
    requires UniqueIds(nodes) && SkillsKnown(nodes, records) && ContractsParse(nodes, records)
    requires |nodes| == 3 && NodeMap(nodes).Keys == {w.a, w.c, w.x}
    requires nodes[0].id == nodes[0].skill == w.a && nodes[1].id == nodes[1].skill == w.c
    requires nodes[2].id == nodes[2].skill == w.x
    requires StepOf(nodes[0], records[w.a]) == Some(Step([], [p], {}))
    requires StepOf(nodes[1], records[w.c]) == Some(Step([], [], {p}))
    requires StepOf(nodes[2], records[w.x]) == Some(Step([], [], {}))
    ensures TrioSteps(w, StepsOf(nodes, records), p)
  {
    StepAt(nodes, records, 0);
    StepAt(nodes, records, 1);
    StepAt(nodes, records, 2);
  }

  predicate BareNode(n: Node, records: Records) {
    n.args == map[] && n.executor == None && n.skill in records && records[n.skill].args == map[]
  }

  predicate NamesTask(n: Node, tasks: seq<Task>) {
    exists i :: 0 <= i < |tasks| && tasks[i].id == n.task
  }

  /** The shape of the graph, as far as the second phase looks at it. */
  ghost predicate TrioShape(w: Trio, g: ExecutionGraph, records: Records, anc: Table, steps: Steps, p: string) {
    && Apart(w) && |g.nodes| == 3 && g.nodes[0].id == w.a && g.nodes[1].id == w.c && g.nodes[2].id == w.x
    && |g.tasks| == 2 && g.tasks[0].goal == [p] && g.tasks[1].goal == [] && SkillsKnown(g.nodes, records)
    && (forall i :: 0 <= i < 3 ==> BareNode(g.nodes[i], records) && NamesTask(g.nodes[i], g.tasks))
    && MembersOf(g.nodes, g.tasks[0].id) == [w.a] && g.tasks[0].id != g.tasks[1].id
    && TrioTable(w, anc) && TrioSteps(w, steps, p)
  }

  lemma {:induction false} TrioReads(w: Trio, g: ExecutionGraph, records: Records, anc: Table, steps: Steps, p: string)
    requires TrioShape(w, g, records, anc, steps, p) && ParseText(p).Some?
    ensures AllReadable(g, anc, steps)
    ensures AllTyped(g, records) && AllBound(g, records) && AllGrounded(g, records, anc, steps, {})
    ensures AllSupported(g, anc, steps, {})
  {
  }

  lemma {:induction false} TrioThreat(w: Trio, anc: Table, steps: Steps, p: string)
    requires Apart(w) && TrioTable(w, anc) && TrioSteps(w, steps, p)
    ensures Covered(anc, steps, [w.a], p) && !CoveredBehind(anc, steps, [w.a], {w.x}, p)
  {
    assert w.c in AfterTask(anc, [w.a]) by { assert Precedes(anc, w.a, w.c); }
    assert w.a in [w.a] && Unthreatened(anc, steps, p, Some(w.a), None, AfterTask(anc, [w.a]));
    assert w.c !in BehindRepairs(anc, [w.a], {w.x}) by { assert !Precedes(anc, w.x, w.c); }
    assert !Unthreatened(anc, steps, p, Some(w.a), None, BehindRepairs(anc, [w.a], {w.x}));
  }

  lemma {:induction false} TrioCover(w: Trio, g: ExecutionGraph, records: Records, anc: Table, steps: Steps, p: string)
    requires TrioShape(w, g, records, anc, steps, p)
    ensures AllCovered(g, anc, steps) && !FirstTaskCovered(g, anc, steps, {w.x})
  {
    TrioThreat(w, anc, steps, p);
    forall i | 0 <= i < |g.tasks|
      ensures TaskCovered(g.tasks[i], g.nodes, anc, steps)
    {
      assert i == 0 || g.tasks[i].goal == [];
    }
    assert !CoveredBehind(anc, steps, MembersOf(g.nodes, g.tasks[0].id), {w.x}, g.tasks[0].goal[0]);
  }

  lemma {:induction false} TrioMembers(w: Trio, nodes: seq<Node>, first: string)
    requires |nodes| == 3 && nodes[0].id == w.a && nodes[0].task == first
    requires nodes[1].task != first && nodes[2].task != first
    ensures MembersOf(nodes, first) == [w.a]
  {
    assert nodes[..2][..1] == nodes[..1] && nodes[..1][..0] == [];
    assert MembersOf(nodes[..1], first) == [w.a];
    assert MembersOf(nodes[..2], first) == [w.a];
  }

  /** The nodes of the plan, and the plan's tasks. */
  predicate TrioNodes(w: Trio, g: ExecutionGraph, p: string) {
    && Apart(w) && |g.nodes| == 3 && |g.tasks| == 2 && g.tasks[0].id != g.tasks[1].id
    && g.tasks[0].goal == [p] && g.tasks[1].goal == []
    && g.nodes[0] == Node(w.a, g.tasks[0].id, w.a, map[], [], None, "manipulate")
    && g.nodes[1] == Node(w.c, g.tasks[1].id, w.c, map[], [w.a], None, "manipulate")
    && g.nodes[2] == Node(w.x, g.tasks[1].id, w.x, map[], [], None, "manipulate")
  }

  lemma {:induction false} TrioContracts(w: Trio, g: ExecutionGraph, q: string)
    requires TrioNodes(w, g, LegalRuns.Printed(q)) && UniqueIds(g.nodes)
    requires NodeMap(g.nodes).Keys == {w.a, w.c, w.x}
    ensures SkillsKnown(g.nodes, TrioRecords(w, q)) && ContractsParse(g.nodes, TrioRecords(w, q))
    ensures TrioSteps(w, StepsOf(g.nodes, TrioRecords(w, q)), LegalRuns.Printed(q))
  {
    TrioStepsAre(w, TrioRecords(w, q), g.nodes[0], g.nodes[1], g.nodes[2], q);
    TrioParses(w, g.nodes, TrioRecords(w, q), LegalRuns.Printed(q));
    StepsAt(w, g.nodes, TrioRecords(w, q), LegalRuns.Printed(q));
  }

  lemma {:induction false} TrioBare(w: Trio, g: ExecutionGraph, p: string, records: Records)
    requires TrioNodes(w, g, p) && SkillsKnown(g.nodes, records)
    requires records[w.a].args == map[] && records[w.c].args == map[] && records[w.x].args == map[]
    ensures forall i :: 0 <= i < 3 ==> BareNode(g.nodes[i], records) && NamesTask(g.nodes[i], g.tasks)
    ensures MembersOf(g.nodes, g.tasks[0].id) == [w.a]
  {
    TrioMembers(w, g.nodes, g.tasks[0].id);
  }

  lemma {:induction false} TrioIsShaped(w: Trio, g: ExecutionGraph, q: string)
    requires TrioNodes(w, g, LegalRuns.Printed(q)) && UniqueIds(g.nodes)
    requires TrioAfter(w, AfterGraph(g.nodes))
    ensures WellOrdered(g, TrioRecords(w, q)) && ContractsParse(g.nodes, TrioRecords(w, q))
    ensures TrioShape(w, g, TrioRecords(w, q), Closure(AfterGraph(g.nodes)), StepsOf(g.nodes, TrioRecords(w, q)),
                      LegalRuns.Printed(q))
  {
    TrioClosure(w, AfterGraph(g.nodes));
    TrioContracts(w, g, q);
    TrioBare(w, g, LegalRuns.Printed(q), TrioRecords(w, q));
  }

  lemma {:induction false} TrioHasNodes(w: Trio, first: string, second: string, q: string)
    requires Apart(w) && first != second
    ensures var g := ToGraph(TrioPlan(w, first, second), TrioTasks(first, second, q));
            && TrioNodes(w, g, LegalRuns.Printed(q)) && UniqueIds(g.nodes) && TrioAfter(w, AfterGraph(g.nodes))
  {
    TrioIsBase(w, first, second);
    UniqueNodes(TrioPlan(w, first, second), map[], first);
    TrioGraph(w, first, second);
  }

  lemma {:induction false} ShapeIsLegal(w: Trio, g: ExecutionGraph, records: Records, p: string)
    requires WellOrdered(g, records) && ContractsParse(g.nodes, records) && ParseText(p).Some?
    requires TrioShape(w, g, records, Closure(AfterGraph(g.nodes)), StepsOf(g.nodes, records), p)
    ensures Legal(g, records, [], {})
    ensures !FirstTaskCovered(g, Closure(AfterGraph(g.nodes)), StepsOf(g.nodes, records), {w.x})
  {
    var anc, steps := Closure(AfterGraph(g.nodes)), StepsOf(g.nodes, records);
    assert FactSet([]) == {};
    TrioReads(w, g, records, anc, steps, p);
    TrioCover(w, g, records, anc, steps, p);
  }

  lemma {:induction false} NameReads(q: string)
    requires IsIdentifier(q)
    ensures ParseText(LegalRuns.Printed(q)).Some?
  {
    RoundTrip(Atom(q, []));
  }

  lemma {:induction false} TrioIsLegal(w: Trio, g: ExecutionGraph, q: string)
    requires TrioNodes(w, g, LegalRuns.Printed(q)) && UniqueIds(g.nodes) && TrioAfter(w, AfterGraph(g.nodes))
    requires IsIdentifier(q)
    ensures Legal(g, TrioRecords(w, q), [], {})
    ensures !FirstTaskCovered(g, Closure(AfterGraph(g.nodes)), StepsOf(g.nodes, TrioRecords(w, q)), {w.x})
  {
    TrioIsShaped(w, g, q);
    NameReads(q);
    ShapeIsLegal(w, g, TrioRecords(w, q), LegalRuns.Printed(q));
  }

  /** A legal base plan that these repairs make illegal. */
  ghost predicate LosesLegality(base: Plan, rs: Repairs, tasks: seq<Task>, records: Records, facts: seq<Ref>,
                                objects: set<string>) {
    && BasePlan(base) && Sound(base, rs) && StrategiesBare(records, rs)
    && Legal(ToGraph(base, tasks), records, facts, objects)
    && !Legal(ToGraph(Repaired(base, rs), tasks), WithStrategies(records, rs), facts, objects)
  }

  lemma {:induction false} TrioLoses(w: Trio, base: Plan, rs: Repairs, tasks: seq<Task>, q: string)
    requires TrioNodes(w, ToGraph(base, tasks), LegalRuns.Printed(q)) && UniqueIds(ToGraph(base, tasks).nodes)
    requires TrioAfter(w, AfterGraph(ToGraph(base, tasks).nodes)) && IsIdentifier(q)
    requires BasePlan(base) && Sound(base, rs) && StrategiesBare(TrioRecords(w, q), rs) && rs.Keys == {w.x}
    ensures LosesLegality(base, rs, tasks, TrioRecords(w, q), [], {})
  {
    TrioIsLegal(w, ToGraph(base, tasks), q);
    RepairedLegalExactly(base, rs, tasks, TrioRecords(w, q), [], {});
  }

  lemma {:induction false} TrioRepair(w: Trio, first: string, second: string, q: string, strategy: string)
    requires Apart(w) && strategy != [] && strategy !in {w.a, w.c, w.x}
    ensures Sound(TrioPlan(w, first, second), map[w.x := strategy])
    ensures StrategiesBare(TrioRecords(w, q), map[w.x := strategy])
  {
    assert TrioPlan(w, first, second)[2].id == w.x;
  }

  /** A repair in front of `x` counts for the first task, and `c` need not wait for it. */
  lemma {:induction false} RepairEndsLegality(w: Trio, first: string, second: string, q: string, strategy: string)
    requires Apart(w) && first != second && IsIdentifier(q) && strategy != [] && strategy !in {w.a, w.c, w.x}
    ensures LosesLegality(TrioPlan(w, first, second), map[w.x := strategy], TrioTasks(first, second, q),
                          TrioRecords(w, q), [], {})
  {
    TrioIsBase(w, first, second);
    TrioHasNodes(w, first, second, q);
    TrioRepair(w, first, second, q, strategy);
    TrioLoses(w, TrioPlan(w, first, second), map[w.x := strategy], TrioTasks(first, second, q), q);
  }
}
