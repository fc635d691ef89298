/** What a partial-order plan means. A step replaces the state by
    `(state - clobbers) + ensures`; a plan is executed in some linear extension
    of its `after` relation. The causal-support test of Legal(G) is stated here
    on the closure table and shown sound, and exact for a single supporter, over
    all linear extensions. */
module Plans {
  import opened Options
  import opened Digraph

  datatype Step = Step(req: seq<string>, ens: seq<string>, clob: set<string>)

  type Steps = map<string, Step>
  type State = set<string>
  type Table = map<string, set<string>>

  function Apply(s: State, step: Step): (r: State) {
    (s - step.clob) + Elements(step.ens)
  }

  /** The state after executing the listed nodes from `s`. */
  function Run(steps: Steps, order: seq<string>, s: State): (r: State)
    requires forall x :: x in order ==> x in steps
  {
    if order == [] then s
    else Apply(Run(steps, order[..|order| - 1], s), steps[order[|order| - 1]])
  }

  // ---------------------------------------------------- the causal-link test

  predicate Precedes(anc: Table, a: string, b: string) {
    b in anc && a in anc[b]
  }

  /** `unthreatened(p, m, n, ok)`: supporter `m` (None = the initial facts),
      consumer `n` (None = the end of the task), and the exempted nodes. */
  predicate Unthreatened(anc: Table, steps: Steps, p: string, m: Option<string>, n: Option<string>,
                         exempt: set<string>) {
    forall c :: c in steps && p in steps[c].clob && m != Some(c) && n != Some(c) && c !in exempt ==>
      || (m.Some? && Precedes(anc, c, m.value))
      || (n.Some? && Precedes(anc, n.value, c))
  }

  predicate Supported(anc: Table, steps: Steps, facts: State, n: string, p: string) {
    || (p in facts && Unthreatened(anc, steps, p, None, Some(n), {}))
    || exists m :: m in anc && m in steps && Precedes(anc, m, n) && p in steps[m].ens
                   && Unthreatened(anc, steps, p, Some(m), Some(n), {})
  }

  /** The nodes that every member strictly precedes. */
  function AfterTask(anc: Table, members: seq<string>): (r: set<string>) {
    set c | c in anc && forall x :: x in members ==> Precedes(anc, x, c)
  }

  predicate Covered(anc: Table, steps: Steps, members: seq<string>, p: string) {
    exists m :: m in members && m in steps && p in steps[m].ens
                && Unthreatened(anc, steps, p, Some(m), None, AfterTask(anc, members))
  }

  // ------------------------------------------------------- execution lemmas

  /** `c` makes `p` false. */
  predicate Erases(steps: Steps, c: string, p: string) {
    c in steps && p in steps[c].clob && p !in steps[c].ens
  }

  lemma {:induction false} Persists(steps: Steps, order: seq<string>, s: State, p: string, j: nat, i: nat)
    requires forall x :: x in order ==> x in steps
    requires j <= i <= |order| && p in Run(steps, order[..j], s)
    requires forall k :: j <= k < i ==> !Erases(steps, order[k], p)
    ensures p in Run(steps, order[..i], s)
  {
    if j < i {
      Persists(steps, order, s, p, j, i - 1);
      assert order[..i][..i - 1] == order[..i - 1];
    }
  }

  lemma {:induction false} StaysFalse(steps: Steps, order: seq<string>, s: State, p: string, j: nat, i: nat)
    requires forall x :: x in order ==> x in steps
    requires j <= i <= |order| && p !in Run(steps, order[..j], s)
    requires forall k :: j <= k < i ==> p !in steps[order[k]].ens
    ensures p !in Run(steps, order[..i], s)
  {
    if j < i {
      StaysFalse(steps, order, s, p, j, i - 1);
      assert order[..i][..i - 1] == order[..i - 1];
    }
  }

  lemma {:induction false} TrueAfter(steps: Steps, order: seq<string>, s: State, p: string, j: nat)
    requires forall x :: x in order ==> x in steps
    requires j < |order| && p in steps[order[j]].ens
    ensures p in Run(steps, order[..j + 1], s)
  {
    assert order[..j + 1][..j] == order[..j];
  }

  lemma {:induction false} StandsEarlier(g: Graph, order: seq<string>, a: string, i: nat) returns (j: nat)
    requires LinearExtension(g, order) && i < |order| && Precedes(Closure(g), a, order[i])
    ensures j < i && order[j] == a
  {
    ReachedStandsEarlier(g, order, i, a);
    j :| 0 <= j < i && order[j] == a;
  }

  // ------------------------------------- requirements over every linear order

  ghost predicate HoldsOnEntry(steps: Steps, order: seq<string>, s: State, n: string, p: string)
    requires forall x :: x in order ==> x in steps
  {
    forall i :: 0 <= i < |order| && order[i] == n ==> p in Run(steps, order[..i], s)
  }

  /** `p` is true on entry to `n` whichever linear extension is executed. */
  ghost predicate HoldsInEveryOrder(g: Graph, steps: Steps, s: State, n: string, p: string)
    requires g.Keys == steps.Keys
  {
    forall order {:trigger LinearExtension(g, order)} :: LinearExtension(g, order) ==>
      (forall x :: x in order ==> x in steps) && HoldsOnEntry(steps, order, s, n, p)
  }

  /** No node can erase `p` between its supporter `m` and its consumer `n`. */
  ghost predicate LinkSafe(g: Graph, steps: Steps, p: string, m: Option<string>, n: string) {
    forall c :: Erases(steps, c, p) && m != Some(c) && n != c ==>
      || (m.Some? && Precedes(Closure(g), c, m.value))
      || Precedes(Closure(g), n, c)
  }

  lemma {:induction false} OrderIsOfSteps(g: Graph, steps: Steps, order: seq<string>)
    requires g.Keys == steps.Keys && LinearExtension(g, order)
    ensures forall x :: x in order ==> x in steps
  {
    forall x | x in order
      ensures x in steps
    {
      assert x in Elements(order);
    }
  }

  lemma {:induction false} SafeLinkHolds(g: Graph, steps: Steps, s: State, n: string, p: string, m: Option<string>)
    requires g.Keys == steps.Keys
    requires m.None? ==> p in s
    requires m.Some? ==> m.value in steps && Precedes(Closure(g), m.value, n) && p in steps[m.value].ens
    requires LinkSafe(g, steps, p, m, n)
    ensures HoldsInEveryOrder(g, steps, s, n, p)
  {
    forall order | LinearExtension(g, order)
      ensures (forall x :: x in order ==> x in steps) && HoldsOnEntry(steps, order, s, n, p)
    {
      OrderIsOfSteps(g, steps, order);
      forall i | 0 <= i < |order| && order[i] == n
        ensures p in Run(steps, order[..i], s)
      {
        var j := 0;
        if m.Some? {
          j := StandsEarlier(g, order, m.value, i);
          TrueAfter(steps, order, s, p, j);
          j := j + 1;
        }
        forall k | j <= k < i
          ensures !Erases(steps, order[k], p)
        {
          if Erases(steps, order[k], p) {
            if m.Some? && Precedes(Closure(g), order[k], m.value) {
              var l := StandsEarlier(g, order, order[k], j - 1);
            } else {
              assert Precedes(Closure(g), n, order[k]);
              var l := StandsEarlier(g, order, n, k);
            }
          }
        }
        Persists(steps, order, s, p, j, i);
      }
    }
  }

  /** Soundness of the test: a supported requirement is true on entry in every order. */
  lemma {:induction false} SupportedHolds(g: Graph, steps: Steps, facts: State, n: string, p: string)
    requires g.Keys == steps.Keys && Supported(Closure(g), steps, facts, n, p)
    ensures HoldsInEveryOrder(g, steps, facts, n, p)
  {
    if p in facts && Unthreatened(Closure(g), steps, p, None, Some(n), {}) {
      SafeLinkHolds(g, steps, facts, n, p, None);
    } else {
      var m :| m in Closure(g) && m in steps && Precedes(Closure(g), m, n) && p in steps[m].ens
        && Unthreatened(Closure(g), steps, p, Some(m), Some(n), {});
      SafeLinkHolds(g, steps, facts, n, p, Some(m));
    }
  }

  // ------------------------------------------------------------ task goals

  predicate NoneAmong(order: seq<string>, s: set<string>) {
    forall i :: 0 <= i < |order| ==> order[i] !in s
  }

  /** After its supporter `m` has run, a goal atom survives up to prefix `k` as
      long as no exempted node has run. */
  lemma {:induction false} GoalLinkHolds(g: Graph, steps: Steps, s: State, exempt: set<string>, p: string, m: string,
                      order: seq<string>, j: nat, k: nat)
    requires g.Keys == steps.Keys && LinearExtension(g, order) && forall x :: x in order ==> x in steps
    requires j < k <= |order| && order[j] == m && p in steps[m].ens
    requires Unthreatened(Closure(g), steps, p, Some(m), None, exempt)
    requires NoneAmong(order[..k], exempt)
    ensures p in Run(steps, order[..k], s)
  {
    TrueAfter(steps, order, s, p, j);
    forall l | j + 1 <= l < k
      ensures !Erases(steps, order[l], p)
    {
      if Erases(steps, order[l], p) {
        assert order[l] == order[..k][l] && order[l] != m;
        assert Precedes(Closure(g), order[l], m);
        var e := StandsEarlier(g, order, order[l], j);
      }
    }
    Persists(steps, order, s, p, j + 1, k);
  }

  /** Goal atoms of a covered task hold in every state reached after all members
      have run and before any node that all members strictly precede has run. */
  lemma {:induction false} CoveredHolds(g: Graph, steps: Steps, s: State, members: seq<string>, p: string,
                     order: seq<string>, k: nat)
    requires g.Keys == steps.Keys && Covered(Closure(g), steps, members, p)
    requires LinearExtension(g, order) && k <= |order|
    requires forall x :: x in members ==> x in order[..k]
    requires NoneAmong(order[..k], AfterTask(Closure(g), members))
    ensures (forall x :: x in order ==> x in steps) && p in Run(steps, order[..k], s)
  {
    OrderIsOfSteps(g, steps, order);
    var m :| m in members && m in steps && p in steps[m].ens
      && Unthreatened(Closure(g), steps, p, Some(m), None, AfterTask(Closure(g), members));
    var j :| 0 <= j < k && order[j] == m;
    GoalLinkHolds(g, steps, s, AfterTask(Closure(g), members), p, m, order, j, k);
  }

  /** At the moment the last member finishes, no node that all members precede has run. */
  lemma {:induction false} LastMember(g: Graph, members: seq<string>, order: seq<string>, k: nat)
    requires LinearExtension(g, order) && 0 < k <= |order| && order[k - 1] in members
    ensures NoneAmong(order[..k], AfterTask(Closure(g), members))
  {
    forall i | 0 <= i < k
      ensures order[..k][i] !in AfterTask(Closure(g), members)
    {
      if order[i] in AfterTask(Closure(g), members) {
        assert Precedes(Closure(g), order[k - 1], order[i]);
        var j := StandsEarlier(g, order, order[k - 1], i);
      }
    }
  }

  // -------------------------------------------------------------- exactness

  function Keep(order: seq<string>, b: set<string>): (r: seq<string>)
    ensures forall x :: x in r <==> x in order && x in b
  {
    if order == [] then []
    else
      var last := order[|order| - 1];
      Keep(order[..|order| - 1], b) + (if last in b then [last] else [])
  }

  /** A block of nodes whose predecessors are in it or already placed can be
      placed next, in the relative order of a given linear extension. */
  lemma {:induction false} PlaceBlock(g: Graph, a: seq<string>, order: seq<string>, b: set<string>)
    requires Topological(g, a) && Topological(g, order) && Elements(a) !! b
    requires forall x, y :: x in b && Edge(g, x, y) ==> y in a || y in b
    ensures Topological(g, a + Keep(order, b))
  {
    if order == [] {
      assert a + Keep(order, b) == a;
    } else {
      var init, last := order[..|order| - 1], order[|order| - 1];
      assert Topological(g, init) by {
        forall i | 0 <= i < |init|
          ensures init[i] in g && forall y :: y in g[init[i]] ==> y in init[..i]
        {
          assert init[i] == order[i] && init[..i] == order[..i];
        }
      }
      PlaceBlock(g, a, init, b);
      if last in b {
        assert last !in a by { assert last !in Elements(a); }
        forall y | y in g[last]
          ensures y in a + Keep(init, b)
        {
          assert Edge(g, last, y);
          assert y in order[..|order| - 1];
        }
        ExtendOrder(g, a + Keep(init, b), last);
        assert a + Keep(order, b) == a + Keep(init, b) + [last];
      } else {
        assert a + Keep(order, b) == a + Keep(init, b);
      }
    }
  }

  function Down(anc: Table, x: Option<string>): (r: set<string>) {
    if x.Some? && x.value in anc then anc[x.value] + {x.value} else {}
  }

  lemma {:induction false} DownClosed(g: Graph, x: Option<string>)
    requires Closed(g) && (x.Some? ==> x.value in g)
    ensures forall a, b :: a in Down(Closure(g), x) && Edge(g, a, b) ==>
      b in Down(Closure(g), x) && b in Closure(g)[x.value]
  {
    forall a, b | a in Down(Closure(g), x) && Edge(g, a, b)
      ensures b in Closure(g)[x.value]
    {
      EdgeReaches(g, a, b);
      if a != x.value {
        ReachesTransitive(g, x.value, a, b);
      }
    }
  }

  /** `c` may be scheduled between `m` and `n`. */
  ghost predicate Threatens(g: Graph, steps: Steps, p: string, m: Option<string>, n: string, c: string) {
    && Erases(steps, c, p) && m != Some(c) && n != c
    && !(m.Some? && Precedes(Closure(g), c, m.value))
    && !Precedes(Closure(g), n, c)
  }

  /** `m` is the only supporter of `p` at `n` (None: the initial facts alone). */
  ghost predicate OnlySupporter(g: Graph, steps: Steps, s: State, n: string, p: string, m: Option<string>) {
    && (m.None? ==> p in s)
    && (m.Some? ==> m.value in steps && Precedes(Closure(g), m.value, n) && p in steps[m.value].ens)
    && forall x :: x in steps && Precedes(Closure(g), x, n) && p in steps[x].ens ==> m == Some(x)
  }

  /** The first stretch of the bad order: of what must run before `c` or `n`,
      everything that need not wait for `c`, and then `c`. */
  function Undelayed(anc: Table, n: string, c: string): (r: set<string>)
    requires n in anc && c in anc
  {
    set x | x in anc[n] + anc[c] && x != c && !Precedes(anc, c, x)
  }

  lemma {:induction false} UndelayedClosed(g: Graph, n: string, c: string, x: string, y: string)
    requires Closed(g) && n in g && c in g && x in Undelayed(Closure(g), n, c) && Edge(g, x, y)
    ensures y in Undelayed(Closure(g), n, c)
  {
    EdgeReaches(g, x, y);
    if x in Closure(g)[n] {
      ReachesTransitive(g, n, x, y);
    } else {
      ReachesTransitive(g, c, x, y);
    }
    if Precedes(Closure(g), c, y) {
      ReachesTransitive(g, x, y, c);
    }
  }

  lemma {:induction false} PlaceThreat(g: Graph, order: seq<string>, n: string, c: string) returns (a: seq<string>)
    requires Closed(g) && Acyclic(g) && LinearExtension(g, order) && n in g && c in g
    requires n != c && !Precedes(Closure(g), n, c)
    ensures Topological(g, a + [c]) && n !in a + [c]
    ensures forall x :: x in a <==> x in Undelayed(Closure(g), n, c)
    ensures forall y :: Edge(g, c, y) ==> y in a
  {
    var b := Undelayed(Closure(g), n, c);
    a := [] + Keep(order, b);
    assert forall x :: x in b ==> x in Elements(order);
    forall x, y | x in b && Edge(g, x, y)
      ensures y in b
    {
      UndelayedClosed(g, n, c, x, y);
    }
    PlaceBlock(g, [], order, b);
    forall y | Edge(g, c, y)
      ensures y in b
    {
      EdgeReaches(g, c, y);
      if Precedes(Closure(g), c, y) {
        ReachesTransitive(g, y, c, y);
      }
    }
    ExtendOrder(g, a, c);
  }

  /** A linear extension that enters `n` after exactly `early` and the
      predecessors of `n` that are not in it. */
  lemma {:induction false} CompleteOrder(g: Graph, early: seq<string>, n: string) returns (order: seq<string>, at: nat)
    requires Closed(g) && Acyclic(g) && Topological(g, early) && n in g && n !in early
    requires forall x, y :: x in early && Edge(g, x, y) ==> y in early
    ensures LinearExtension(g, order)
    ensures |early| <= at < |order| && order[at] == n && order[..|early|] == early
    ensures forall k :: |early| <= k < at ==> order[k] in Closure(g)[n] && order[k] !in early
  {
    var some := LinearExtensionExists(g);
    assert forall x :: x in g ==> x in Elements(some);
    DownClosed(g, Some(n));
    var rest := Closure(g)[n] - Elements(early);
    PlaceBlock(g, early, some, rest);
    var entry := early + Keep(some, rest);
    forall y | y in g[n]
      ensures y in entry
    {
      assert Edge(g, n, y) && n in Down(Closure(g), Some(n));
      assert y in Elements(early) || y in rest;
    }
    assert n !in entry;
    ExtendOrder(g, entry, n);
    order := FillUp(g, entry + [n], some);
    at := |entry|;
    forall k | |early| <= k < at
      ensures order[k] in rest
    {
      assert order[k] == entry[k] == Keep(some, rest)[k - |early|];
    }
  }

  lemma {:induction false} FillUp(g: Graph, a: seq<string>, some: seq<string>) returns (order: seq<string>)
    requires Topological(g, a) && LinearExtension(g, some)
    ensures LinearExtension(g, order) && a <= order
  {
    TopologicalIsAcyclic(g, some);
    var last := g.Keys - Elements(a);
    PlaceBlock(g, a, some, last);
    order := a + Keep(some, last);
    assert forall x :: x in g ==> x in Elements(some);
    assert Elements(order) == g.Keys;
  }

  /** Some predecessor of `n` that must wait for `c` provides `p` again. */
  ghost predicate Renewed(g: Graph, steps: Steps, p: string, n: string, c: string) {
    exists w :: w in steps && Precedes(Closure(g), c, w) && Precedes(Closure(g), w, n) && p in steps[w].ens
  }

  /** An eraser that nothing orders after `n` and nothing renews can be scheduled
      so that the requirement is false on entry to `n`. The order is constructed. */
  lemma {:induction false} ErasureIsReal(g: Graph, steps: Steps, s: State, n: string, p: string, c: string)
    returns (order: seq<string>)
    requires g.Keys == steps.Keys && Closed(g) && Acyclic(g) && n in g
    requires Erases(steps, c, p) && c != n && !Precedes(Closure(g), n, c) && !Renewed(g, steps, p, n, c)
    ensures LinearExtension(g, order) && (forall x :: x in order ==> x in steps)
    ensures !HoldsOnEntry(steps, order, s, n, p)
  {
    var some := LinearExtensionExists(g);
    var a := PlaceThreat(g, some, n, c);
    var early := a + [c];
    forall x, y | x in early && Edge(g, x, y)
      ensures y in early
    {
      if x != c {
        UndelayedClosed(g, n, c, x, y);
      }
    }
    var at;
    order, at := CompleteOrder(g, early, n);
    OrderIsOfSteps(g, steps, order);
    assert early[..|early| - 1] == a;
    assert p !in Run(steps, order[..|early|], s);
    forall k | |early| <= k < at
      ensures p !in steps[order[k]].ens
    {
      assert Precedes(Closure(g), order[k], n) && order[k] !in a && order[k] != c;
      assert Precedes(Closure(g), c, order[k]);
    }
    StaysFalse(steps, order, s, p, |early|, at);
  }

  /** What nothing provides is false on entry in some order. */
  lemma {:induction false} UnprovidedIsFalse(g: Graph, steps: Steps, s: State, n: string, p: string)
    returns (order: seq<string>)
    requires g.Keys == steps.Keys && Closed(g) && Acyclic(g) && n in g && !Provided(g, steps, s, n, p)
    ensures LinearExtension(g, order) && (forall x :: x in order ==> x in steps)
    ensures !HoldsOnEntry(steps, order, s, n, p)
  {
    var at;
    order, at := CompleteOrder(g, [], n);
    OrderIsOfSteps(g, steps, order);
    forall k | 0 <= k < at
      ensures p !in steps[order[k]].ens
    {
      assert Precedes(Closure(g), order[k], n);
    }
    StaysFalse(steps, order, s, p, 0, at);
  }

  /** The initial facts or some predecessor provide `p`. */
  ghost predicate Provided(g: Graph, steps: Steps, s: State, n: string, p: string) {
    p in s || exists m :: m in steps && Precedes(Closure(g), m, n) && p in steps[m].ens
  }

  /** Every eraser that may run before `n` is made good by a later predecessor. */
  ghost predicate ErasersAnswered(g: Graph, steps: Steps, n: string, p: string) {
    forall c :: Erases(steps, c, p) && c != n && !Precedes(Closure(g), n, c) ==> Renewed(g, steps, p, n, c)
  }

  /** The position after the last eraser among the first `i` nodes. */
  function AfterLastEraser(steps: Steps, order: seq<string>, p: string, i: nat): (k: nat)
    requires i <= |order|
    ensures k <= i && (k > 0 ==> Erases(steps, order[k - 1], p))
    ensures forall l :: k <= l < i ==> !Erases(steps, order[l], p)
  {
    if i == 0 || Erases(steps, order[i - 1], p) then i else AfterLastEraser(steps, order, p, i - 1)
  }

  lemma {:induction false} RenewalStands(g: Graph, steps: Steps, n: string, p: string, order: seq<string>, k: nat,
                                         i: nat) returns (j: nat)
    requires LinearExtension(g, order) && k < i < |order| && order[i] == n
    requires Erases(steps, order[k], p) && ErasersAnswered(g, steps, n, p)
    ensures k < j < i && order[j] in steps && p in steps[order[j]].ens
  {
    var c := order[k];
    assert order[k] != order[i];
    if Precedes(Closure(g), n, c) {
      var l := StandsEarlier(g, order, n, k);
    }
    var w :| w in steps && Precedes(Closure(g), c, w) && Precedes(Closure(g), w, n) && p in steps[w].ens;
    j := StandsEarlier(g, order, w, i);
    var l := StandsEarlier(g, order, c, j);
    assert l == k by { assert order[l] == order[k]; }
  }

  lemma {:induction false} SupplyStands(g: Graph, steps: Steps, s: State, n: string, p: string, order: seq<string>,
                                        i: nat) returns (from: nat)
    requires LinearExtension(g, order) && (forall x :: x in order ==> x in steps) && i < |order| && order[i] == n
    requires Provided(g, steps, s, n, p)
    ensures from <= i && p in Run(steps, order[..from], s)
  {
    from := 0;
    if p !in s {
      var m :| m in steps && Precedes(Closure(g), m, n) && p in steps[m].ens;
      var j := StandsEarlier(g, order, m, i);
      TrueAfter(steps, order, s, p, j);
      from := j + 1;
    }
  }

  lemma {:induction false} AnsweredHolds(g: Graph, steps: Steps, s: State, n: string, p: string, order: seq<string>,
                                         i: nat)
    requires LinearExtension(g, order) && (forall x :: x in order ==> x in steps) && i < |order| && order[i] == n
    requires Provided(g, steps, s, n, p) && ErasersAnswered(g, steps, n, p)
    ensures p in Run(steps, order[..i], s)
  {
    var k := AfterLastEraser(steps, order, p, i);
    if k > 0 {
      var j := RenewalStands(g, steps, n, p, order, k - 1, i);
      TrueAfter(steps, order, s, p, j);
      Persists(steps, order, s, p, j + 1, i);
    } else {
      var from := SupplyStands(g, steps, s, n, p, order, i);
      Persists(steps, order, s, p, from, i);
    }
  }

  /** Exactly when a requirement is true on entry to its node in every linear
      extension, however many supporters it has: something provides it, and every
      eraser not ordered after the node is followed by a supporter that the node
      waits for. */
  lemma {:induction false} HoldsExactly(g: Graph, steps: Steps, s: State, n: string, p: string)
    requires g.Keys == steps.Keys && Closed(g) && Acyclic(g) && n in g
    ensures HoldsInEveryOrder(g, steps, s, n, p) <==>
      Provided(g, steps, s, n, p) && ErasersAnswered(g, steps, n, p)
  {
    if !Provided(g, steps, s, n, p) {
      var order := UnprovidedIsFalse(g, steps, s, n, p);
    } else if !ErasersAnswered(g, steps, n, p) {
      var c :| Erases(steps, c, p) && c != n && !Precedes(Closure(g), n, c) && !Renewed(g, steps, p, n, c);
      var order := ErasureIsReal(g, steps, s, n, p, c);
    } else {
      forall order | LinearExtension(g, order)
        ensures (forall x :: x in order ==> x in steps) && HoldsOnEntry(steps, order, s, n, p)
      {
        OrderIsOfSteps(g, steps, order);
        forall i | 0 <= i < |order| && order[i] == n
          ensures p in Run(steps, order[..i], s)
        {
          AnsweredHolds(g, steps, s, n, p, order, i);
        }
      }
    }
  }

  // ------------------------------------------------------- the code's own test

  /** With one supporter, an unordered eraser makes the requirement false in some order. */
  lemma {:induction false} ThreatIsReal(g: Graph, steps: Steps, s: State, n: string, p: string, m: Option<string>,
                                        c: string)
    returns (order: seq<string>)
    requires g.Keys == steps.Keys && Closed(g) && Acyclic(g) && n in g
    requires OnlySupporter(g, steps, s, n, p, m) && Threatens(g, steps, p, m, n, c)
    ensures LinearExtension(g, order) && (forall x :: x in order ==> x in steps)
    ensures !HoldsOnEntry(steps, order, s, n, p)
  {
    assert !Renewed(g, steps, p, n, c);
    order := ErasureIsReal(g, steps, s, n, p, c);
  }

  /** For a requirement with one supporter, the link to that supporter decides
      whether the requirement holds on entry in every order. */
  lemma {:induction false} SingleSupporterExact(g: Graph, steps: Steps, s: State, n: string, p: string,
                                                m: Option<string>)
    requires g.Keys == steps.Keys && Closed(g) && Acyclic(g) && n in g
    requires OnlySupporter(g, steps, s, n, p, m)
    ensures HoldsInEveryOrder(g, steps, s, n, p) <==> LinkSafe(g, steps, p, m, n)
  {
    if LinkSafe(g, steps, p, m, n) {
      SafeLinkHolds(g, steps, s, n, p, m);
    } else {
      var c :| Erases(steps, c, p) && m != Some(c) && n != c
        && !(m.Some? && Precedes(Closure(g), c, m.value)) && !Precedes(Closure(g), n, c);
      var order := ThreatIsReal(g, steps, s, n, p, m, c);
    }
  }

  /** Every node that clobbers `p` and ensures it again, other than the two ends
      of the link, is ordered outside the link. */
  ghost predicate RenewersOutside(g: Graph, steps: Steps, p: string, m: Option<string>, n: string) {
    forall c :: c in steps && p in steps[c].clob && p in steps[c].ens && m != Some(c) && n != c ==>
      || (m.Some? && Precedes(Closure(g), c, m.value))
      || Precedes(Closure(g), n, c)
  }

  /** The code's test is link safety and one thing more: it counts a node that
      clobbers and re-ensures the atom as a threat. */
  lemma {:induction false} CheckedLinkExactly(g: Graph, steps: Steps, n: string, p: string, m: Option<string>)
    requires g.Keys == steps.Keys
    ensures Unthreatened(Closure(g), steps, p, m, Some(n), {}) <==>
      LinkSafe(g, steps, p, m, n) && RenewersOutside(g, steps, p, m, n)
  {
    assert forall c :: c in steps && p in steps[c].clob && p !in steps[c].ens ==> Erases(steps, c, p);
  }

  /** So with one supporter the code accepts a requirement exactly when it holds on
      entry in every order and no unordered node clobbers and re-ensures it. */
  lemma {:induction false} SupportedExactly(g: Graph, steps: Steps, s: State, n: string, p: string, m: Option<string>)
    requires g.Keys == steps.Keys && Closed(g) && Acyclic(g) && n in g
    requires OnlySupporter(g, steps, s, n, p, m)
    ensures Supported(Closure(g), steps, s, n, p) <==>
      HoldsInEveryOrder(g, steps, s, n, p) && RenewersOutside(g, steps, p, m, n)
  {
    SingleSupporterExact(g, steps, s, n, p, m);
    CheckedLinkExactly(g, steps, n, p, m);
    OneSupporter(g, steps, s, n, p, m);
  }

  lemma {:induction false} OneSupporter(g: Graph, steps: Steps, s: State, n: string, p: string, m: Option<string>)
    requires g.Keys == steps.Keys && OnlySupporter(g, steps, s, n, p, m)
    ensures Supported(Closure(g), steps, s, n, p) <==> Unthreatened(Closure(g), steps, p, m, Some(n), {})
  {
    if m.Some? && Unthreatened(Closure(g), steps, p, m, Some(n), {}) {
      assert m.value in Closure(g);
    }
  }

  // -------------------- true requirements that the code's test turns down

  lemma {:induction false} NoneReach(g: Graph, x: string)
    requires x in g && g[x] == []
    ensures forall y :: !Reaches(g, x, y)
  {
    forall y
      ensures !Reaches(g, x, y)
    {
      if Reaches(g, x, y) {
        var z := FirstStep(g, x, y);
      }
    }
  }

  /** `n` requires the fact `p`; an unordered `c` clobbers `p` and ensures it again.
      The requirement holds in every order and is refused. */
  lemma {:induction false} RenewerIsRefused(n: string, c: string, p: string)
    requires n != c
    ensures var g: Graph := map[n := [], c := []];
            var steps: Steps := map[n := Step([p], [], {}), c := Step([], [p], {p})];
            && Closed(g) && Acyclic(g) && OnlySupporter(g, steps, {p}, n, p, None)
            && HoldsInEveryOrder(g, steps, {p}, n, p) && !Supported(Closure(g), steps, {p}, n, p)
  {
    var g: Graph := map[n := [], c := []];
    var steps: Steps := map[n := Step([p], [], {}), c := Step([], [p], {p})];
    NoneReach(g, n);
    NoneReach(g, c);
    forall x
      ensures !Reaches(g, x, x)
    {
      if Reaches(g, x, x) {
        var y := FirstStep(g, x, x);
      }
    }
    assert Closed(g);
    SingleSupporterExact(g, steps, {p}, n, p, None);
    SupportedExactly(g, steps, {p}, n, p, None);
    assert p in steps[c].clob && p in steps[c].ens;
  }

  function CrossGraph(n: string, m1: string, m2: string, c1: string, c2: string): (g: Graph) {
    map[n := [m1, m2], m1 := [c1], m2 := [c2], c1 := [], c2 := []]
  }

  function CrossSteps(n: string, m1: string, m2: string, c1: string, c2: string, p: string): (r: Steps) {
    map[n := Step([p], [], {}), m1 := Step([], [p], {}), m2 := Step([], [p], {}),
        c1 := Step([], [], {p}), c2 := Step([], [], {p})]
  }

  predicate AllDifferent(n: string, m1: string, m2: string, c1: string, c2: string) {
    Distinct([n, m1, m2, c1, c2])
  }

  lemma {:induction false} CrossReaches(n: string, m1: string, m2: string, c1: string, c2: string)
    requires AllDifferent(n, m1, m2, c1, c2)
    ensures var g := CrossGraph(n, m1, m2, c1, c2);
            && (forall y :: !Reaches(g, c1, y) && !Reaches(g, c2, y))
            && (forall y :: Reaches(g, m1, y) <==> y == c1) && (forall y :: Reaches(g, m2, y) <==> y == c2)
  {
    var g := CrossGraph(n, m1, m2, c1, c2);
    var all := [n, m1, m2, c1, c2];
    assert all[0] != all[1] && all[0] != all[2] && all[0] != all[3] && all[0] != all[4] && all[1] != all[2];
    assert all[1] != all[3] && all[1] != all[4] && all[2] != all[3] && all[2] != all[4] && all[3] != all[4];
    NoneReach(g, c1);
    NoneReach(g, c2);
    EdgeReaches(g, m1, c1);
    EdgeReaches(g, m2, c2);
    forall y | Reaches(g, m1, y)
      ensures y == c1
    {
      var z := FirstStep(g, m1, y);
    }
    forall y | Reaches(g, m2, y)
      ensures y == c2
    {
      var z := FirstStep(g, m2, y);
    }
  }

  /** `n` waits for two supporters, each of which waits for its own eraser: either
      supporter makes good both erasers, no single link is safe, and the
      requirement, true in every order, is refused. */
  lemma {:induction false} CrossCoverIsRefused(n: string, m1: string, m2: string, c1: string, c2: string, p: string,
                                               facts: State)
    requires AllDifferent(n, m1, m2, c1, c2)
    ensures var g, steps := CrossGraph(n, m1, m2, c1, c2), CrossSteps(n, m1, m2, c1, c2, p);
            && g.Keys == steps.Keys && Closed(g) && Acyclic(g)
            && HoldsInEveryOrder(g, steps, facts, n, p) && !Supported(Closure(g), steps, facts, n, p)
  {
    var g, steps := CrossGraph(n, m1, m2, c1, c2), CrossSteps(n, m1, m2, c1, c2, p);
    var all := [n, m1, m2, c1, c2];
    assert all[0] != all[1] && all[0] != all[2] && all[0] != all[3] && all[0] != all[4] && all[1] != all[2];
    assert all[1] != all[3] && all[1] != all[4] && all[2] != all[3] && all[2] != all[4] && all[3] != all[4];
    CrossReaches(n, m1, m2, c1, c2);
    CrossAcyclic(g, n, m1, m2, c1, c2);
    EdgeReaches(g, n, m1);
    EdgeReaches(g, n, m2);
    assert Precedes(Closure(g), m1, n) && Precedes(Closure(g), m2, n);
    assert Precedes(Closure(g), c1, m1) && Precedes(Closure(g), c2, m2);
    assert ErasersAnswered(g, steps, n, p);
    HoldsExactly(g, steps, facts, n, p);
    assert Erases(steps, c1, p) && Erases(steps, c2, p);
    assert !Precedes(Closure(g), c2, m1) && !Precedes(Closure(g), c1, m2);
    assert !Precedes(Closure(g), n, c1) && !Precedes(Closure(g), n, c2);
  }

  lemma {:induction false} CrossAcyclic(g: Graph, n: string, m1: string, m2: string, c1: string, c2: string)
    requires AllDifferent(n, m1, m2, c1, c2) && g == CrossGraph(n, m1, m2, c1, c2)
    requires (forall y :: !Reaches(g, c1, y) && !Reaches(g, c2, y))
    requires (forall y :: Reaches(g, m1, y) <==> y == c1) && (forall y :: Reaches(g, m2, y) <==> y == c2)
    ensures Closed(g) && Acyclic(g)
  {
    var all := [n, m1, m2, c1, c2];
    assert all[0] != all[1] && all[0] != all[2] && all[0] != all[3] && all[0] != all[4];
    assert all[1] != all[3] && all[2] != all[4];
    forall x
      ensures !Reaches(g, x, x)
    {
      if Reaches(g, x, x) {
        var y := FirstStep(g, x, x);
      }
    }
  }
}
