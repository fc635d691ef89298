/** What the pass rates of a round measure, read off its seed rows. */
module PassRates {
  import opened Options
  import opened Campaign
  import Lists

  // -------------------------------------------------------------- the trails

  /** A repair: a node of kind recovery, or one whose id starts with "recover-". */
  predicate IsRepair(n: Node) {
    n.recovery || (|n.id| >= 8 && n.id[..8] == "recover-")
  }

  lemma {:induction false} KeptOne(n: Node)
    ensures Kept([n]) == if IsRepair(n) then [] else [n]
  {
    assert [n][1..] == [] && Kept([]) == [];
    assert RECOVER <= n.id ==> n.id[..8] == RECOVER;
  }

  lemma {:induction false} KeptConcat(a: seq<Node>, b: seq<Node>)
    ensures Kept(a + b) == Kept(a) + Kept(b)
  {
    if a == [] {
      assert a + b == b;
    } else {
      KeptConcat(a[1..], b);
      Lists.HeadFirst(a, b);
      Lists.Regroup(if Repair(a[0]) then [] else [a[0]], Kept(a[1..]), Kept(b));
    }
  }

  /** The kept nodes of a list are those of its parts in order, and of one node the
      node itself unless it is a repair. */
  lemma {:induction false} KeptIs(a: seq<Node>, b: seq<Node>, n: Node)
    ensures Kept(a + b) == Kept(a) + Kept(b)
    ensures Kept([n]) == if IsRepair(n) then [] else [n]
  {
    KeptConcat(a, b);
    KeptOne(n);
  }

  function OneTrail(row: SeedRow): (r: seq<seq<Node>>) {
    if Kept(row.nodes) == [] then [] else [Kept(row.nodes)]
  }

  lemma {:induction false} TrailsCons(row: SeedRow, rows: seq<SeedRow>)
    ensures Trails([row] + rows) == OneTrail(row) + Trails(rows)
  {
    assert ([row] + rows)[1..] == rows;
  }

  lemma {:induction false} TrailsConcat(a: seq<SeedRow>, b: seq<SeedRow>)
    ensures Trails(a + b) == Trails(a) + Trails(b)
  {
    if a == [] {
      assert a + b == b;
    } else {
      TrailsConcat(a[1..], b);
      TrailsCons(a[0], a[1..]);
      TrailsCons(a[0], a[1..] + b);
      Lists.Regroup(OneTrail(a[0]), Trails(a[1..]), Trails(b));
      Lists.HeadFirst(a, b);
    }
  }

  /** The trails of a list of rows are those of its parts in order, and of one row
      its kept nodes unless there are none. */
  lemma {:induction false} TrailsAre(a: seq<SeedRow>, b: seq<SeedRow>, row: SeedRow)
    ensures Trails(a + b) == Trails(a) + Trails(b)
    ensures Trails([row]) == if Kept(row.nodes) == [] then [] else [Kept(row.nodes)]
  {
    TrailsConcat(a, b);
    assert [row][1..] == [] && Trails([]) == [];
  }

  // ---------------------------------------------------------------- counting

  /** The positions of the ok nodes. */
  function OkAt(trail: seq<Node>): (r: set<nat>) {
    set i: nat | i < |trail| && trail[i].ok
  }

  lemma {:induction false} OkCountSnoc(trail: seq<Node>, n: Node)
    ensures OkCount(trail + [n]) == OkCount(trail) + if n.ok then 1 else 0
  {
    if trail == [] {
      assert (trail + [n])[1..] == [];
    } else {
      OkCountSnoc(trail[1..], n);
      assert (trail + [n])[1..] == trail[1..] + [n];
    }
  }

  lemma {:induction false} OkAtSnoc(init: seq<Node>, n: Node)
    ensures |OkAt(init + [n])| == |OkAt(init)| + if n.ok then 1 else 0
  {
    var trail := init + [n];
    assert trail[|init|] == n && forall i :: 0 <= i < |init| ==> trail[i] == init[i];
    assert OkAt(trail) == OkAt(init) + if n.ok then {|init|} else {};
  }

  lemma {:induction false} OkCountIs(trail: seq<Node>)
    ensures OkCount(trail) == |OkAt(trail)|
  {
    if trail != [] {
      var init, n := trail[..|trail| - 1], trail[|trail| - 1];
      assert trail == init + [n];
      OkCountIs(init);
      OkCountSnoc(init, n);
      OkAtSnoc(init, n);
    }
  }

  /** The trails in which the task passes. */
  function PassesAt(trails: seq<seq<Node>>, task: string): (r: set<nat>) {
    set i: nat | i < |trails| && TaskPasses(trails[i], task)
  }

  lemma {:induction false} PassesSnoc(init: seq<seq<Node>>, trail: seq<Node>, task: string)
    ensures |PassesAt(init + [trail], task)| == |PassesAt(init, task)| + if TaskPasses(trail, task) then 1 else 0
  {
    var k, last := |init|, if TaskPasses(trail, task) then {|init|} else {};
    assert PassesAt(init + [trail], task) == PassesAt(init, task) + last;
  }

  lemma {:induction false} PassesIs(trails: seq<seq<Node>>, task: string)
    ensures Passes(trails, task) == |PassesAt(trails, task)|
  {
    if trails != [] {
      var init, k := trails[..|trails| - 1], |trails| - 1;
      PassesIs(init, task);
      PassesSnoc(init, trails[k], task);
      assert trails == init + [trails[k]];
    }
  }

  /** A node of some trail names the task. */
  predicate NamesTask(trails: seq<seq<Node>>, task: string) {
    task != "" && exists i :: 0 <= i < |trails| && HasTask(trails[i], task)
  }

  lemma {:induction false} TrailNames(trail: seq<Node>, task: string)
    ensures task in TrailTasks(trail) <==> task != "" && HasTask(trail, task)
  {
    if HasTask(trail, task) && task != "" {
      var j :| 0 <= j < |trail| && trail[j].task == task;
      assert trail[j] in trail;
    }
  }

  lemma {:induction false} TasksAre(trails: seq<seq<Node>>, task: string)
    ensures task in Tasks(trails) <==> NamesTask(trails, task)
  {
    if trails != [] {
      var init, k := trails[..|trails| - 1], |trails| - 1;
      TasksAre(init, task);
      TrailNames(trails[k], task);
      assert forall i :: 0 <= i < k ==> init[i] == trails[i];
    }
  }

  // ------------------------------------------------------------------ rates

  function Sum(xs: seq<real>): (r: real) {
    if xs == [] then 0.0 else xs[0] + Sum(xs[1..])
  }

  /** `x` is the fraction of the trail's nodes that are ok. */
  predicate OkFraction(trail: seq<Node>, x: real) {
    x * |trail| as real == |OkAt(trail)| as real
  }

  lemma {:induction false} FractionIs(trail: seq<Node>)
    requires trail != []
    ensures OkFraction(trail, OkCount(trail) as real / |trail| as real)
  {
    OkCountIs(trail);
  }

  lemma {:induction false} FractionsAre(trails: seq<seq<Node>>) returns (xs: seq<real>)
    requires forall i :: 0 <= i < |trails| ==> trails[i] != []
    ensures |xs| == |trails| && FractionSum(trails) == Sum(xs)
    ensures forall i :: 0 <= i < |trails| ==> OkFraction(trails[i], xs[i])
  {
    if trails == [] {
      xs := [];
    } else {
      var rest := FractionsAre(trails[1..]);
      FractionIs(trails[0]);
      xs := [OkCount(trails[0]) as real / |trails[0]| as real] + rest;
      assert xs[1..] == rest;
    }
  }

  function Mean(xs: seq<real>): (r: real)
    requires xs != []
  {
    Sum(xs) / |xs| as real
  }

  lemma {:induction false} RateIs(rows: seq<SeedRow>, rnd: real -> real)
    ensures Trails(rows) == [] ==> RatesOf(rows, rnd).rate == None
    ensures Trails(rows) != [] ==>
      RatesOf(rows, rnd).rate == Some(rnd(FractionSum(Trails(rows)) / |Trails(rows)| as real))
  {
  }

  /** The rate is the mean over the trails of the fraction of ok nodes; there is
      none exactly when there is no trail. */
  lemma {:induction false} RateMeaning(rows: seq<SeedRow>, rnd: real -> real) returns (xs: seq<real>)
    ensures |xs| == |Trails(rows)| && forall i :: 0 <= i < |xs| ==> OkFraction(Trails(rows)[i], xs[i])
    ensures RatesOf(rows, rnd).rate == if xs == [] then None else Some(rnd(Mean(xs)))
  {
    RateIs(rows, rnd);
    xs := FractionsAre(Trails(rows));
  }

  /** A task that a trail names has as its rate the fraction of the trails it passes in. */
  lemma {:induction false} TaskRateMeaning(rows: seq<SeedRow>, rnd: real -> real, t: string)
    ensures t in RatesOf(rows, rnd).byTask <==> NamesTask(Trails(rows), t)
    ensures NamesTask(Trails(rows), t) ==>
      RatesOf(rows, rnd).byTask[t] == rnd(|PassesAt(Trails(rows), t)| as real / |Trails(rows)| as real)
  {
    TasksAre(Trails(rows), t);
    PassesIs(Trails(rows), t);
  }

  // ---------------------------------------------------- what a rate can tell

  predicate EveryOk(trail: seq<Node>) {
    forall i :: 0 <= i < |trail| ==> trail[i].ok
  }

  predicate NothingOk(trail: seq<Node>) {
    forall i :: 0 <= i < |trail| ==> !trail[i].ok
  }

  lemma {:induction false} CountExtremes(trail: seq<Node>)
    ensures OkCount(trail) == |trail| <==> EveryOk(trail)
    ensures OkCount(trail) == 0 <==> NothingOk(trail)
  {
    if trail != [] {
      CountExtremes(trail[1..]);
      assert trail == [trail[0]] + trail[1..];
    }
  }

  lemma {:induction false} Quotient(c: real, n: real)
    requires 0.0 <= c <= n && n > 0.0
    ensures 0.0 <= c / n <= 1.0 && (c / n == 1.0 <==> c == n) && (c / n == 0.0 <==> c == 0.0)
  {
  }

  lemma {:induction false} SumExtremes(trails: seq<seq<Node>>)
    requires forall i :: 0 <= i < |trails| ==> trails[i] != []
    ensures 0.0 <= FractionSum(trails) <= |trails| as real
    ensures FractionSum(trails) == |trails| as real <==> forall i :: 0 <= i < |trails| ==> EveryOk(trails[i])
    ensures FractionSum(trails) == 0.0 <==> forall i :: 0 <= i < |trails| ==> NothingOk(trails[i])
  {
    if trails != [] {
      var first, rest := trails[0], trails[1..];
      SumExtremes(rest);
      CountExtremes(first);
      Quotient(OkCount(first) as real, |first| as real);
      assert trails == [first] + rest;
    }
  }

  /** The mean is one exactly when every kept node is ok, and zero exactly when none is. */
  lemma {:induction false} RateExtremes(rows: seq<SeedRow>)
    requires Trails(rows) != []
    ensures var trails := Trails(rows);
            var mean := FractionSum(trails) / |trails| as real;
            && 0.0 <= mean <= 1.0
            && (mean == 1.0 <==> forall i :: 0 <= i < |trails| ==> EveryOk(trails[i]))
            && (mean == 0.0 <==> forall i :: 0 <= i < |trails| ==> NothingOk(trails[i]))
  {
    SumExtremes(Trails(rows));
    Quotient(FractionSum(Trails(rows)), |Trails(rows)| as real);
  }

  lemma {:induction false} MoreOver(a: real, b: real, n: real)
    requires a < b && n > 0.0
    ensures a / n < b / n
  {
    assert b / n - a / n == (b - a) / n > 0.0;
  }

  lemma {:induction false} OneMoreOk(trail: seq<Node>, j: nat)
    requires j < |trail| && !trail[j].ok
    ensures OkCount(trail[j := trail[j].(ok := true)]) == OkCount(trail) + 1
  {
    var t := trail[j := trail[j].(ok := true)];
    if j == 0 {
      assert t[1..] == trail[1..];
    } else {
      OneMoreOk(trail[1..], j - 1);
      assert t[1..] == trail[1..][j - 1 := trail[j].(ok := true)];
    }
  }

  /** Turning one node of one trail ok raises the mean. */
  lemma {:induction false} OkRaisesRate(trails: seq<seq<Node>>, i: nat, j: nat)
    requires (forall k :: 0 <= k < |trails| ==> trails[k] != []) && i < |trails| && j < |trails[i]|
    requires !trails[i][j].ok
    ensures var better := trails[i := trails[i][j := trails[i][j].(ok := true)]];
            FractionSum(trails) / |trails| as real < FractionSum(better) / |better| as real
  {
    var better := trails[i := trails[i][j := trails[i][j].(ok := true)]];
    OkRaisesSum(trails, i, j);
    MoreOver(FractionSum(trails), FractionSum(better), |trails| as real);
  }

  lemma {:induction false} OkRaisesSum(trails: seq<seq<Node>>, i: nat, j: nat)
    requires (forall k :: 0 <= k < |trails| ==> trails[k] != []) && i < |trails| && j < |trails[i]|
    requires !trails[i][j].ok
    ensures FractionSum(trails) < FractionSum(trails[i := trails[i][j := trails[i][j].(ok := true)]])
  {
    var better := trails[i := trails[i][j := trails[i][j].(ok := true)]];
    if i == 0 {
      OneMoreOk(trails[0], j);
      MoreOver(OkCount(trails[0]) as real, OkCount(better[0]) as real, |trails[0]| as real);
      assert better[1..] == trails[1..];
    } else {
      OkRaisesSum(trails[1..], i - 1, j);
      assert better[1..] == trails[1..][i - 1 := better[i]];
    }
  }
}
