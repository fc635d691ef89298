/** The campaign store of scripts/evolve.py and its readers in board/store.py:
    old rounds move to write-once files and stand in the list as index rows. */
module Campaign {
  import opened Options
  import opened CanonicalJson

  /** The keys a round row carries beside its number, `tried` and its seed rows. */
  datatype Key =
    | Before | After | Best | Parent | Outcome | Accepted | AcceptedReason | Published | BeforeScore | AfterScore
    | Usage | Proposer | Needs | Confirm | SuiteSha | Proposal | Ts | Workspace | Llm | Evaluation | Diagnosis
    | Transfer | Policy | RunBudget | CycleBudget | CycleOutcome | Extra(name: string)

  datatype DetailKey = Summary | Reason | Error | Files | Tunables | Path | From | To | ExtraDetail(name: string)

  datatype Detail = NoDetail | Entries(entries: map<DetailKey, Json>) | Bare(value: Json)

  /** `tried`: absent, a dict, or something else that is truthy. */
  datatype Tried = NoTried | Attempt(kind: Json, node: Json, detail: Detail) | Raw(value: Json)

  /** A node of a seed's trail; an empty `task` stands for an absent one. */
  datatype Node = Node(id: string, recovery: bool, task: string, ok: bool)

  /** The four keys an index row keeps of a seed row. */
  datatype SeedKeys = SeedKeys(seed: Json, success: Json, firstDeath: Json, failureMode: Json)

  datatype SeedRow = SeedRow(keys: SeedKeys, nodes: seq<Node>)

  datatype Round = Round(number: int, fields: map<Key, Json>, tried: Tried, perSeed: seq<SeedRow>,
                         afterSeeds: seq<SeedRow>)

  datatype Pair = Pair(before: Option<real>, after: Option<real>)

  /** An entry of the `rounds` list: a full row, or the index row of an archived one. */
  datatype Row =
    | Full(full: Round)
    | Index(number: int, fields: map<Key, Json>, tried: Tried, nodeRate: Pair, byTask: map<string, Pair>,
            perSeed: seq<SeedKeys>, afterSeeds: seq<SeedKeys>)

  // -------------------------------------------------------------- pass rates

  const RECOVER := "recover-"

  predicate Repair(n: Node) {
    n.recovery || RECOVER <= n.id
  }

  function Kept(nodes: seq<Node>): (r: seq<Node>) {
    if nodes == [] then []
    else (if Repair(nodes[0]) then [] else [nodes[0]]) + Kept(nodes[1..])
  }

  /** The trails that count: repair nodes dropped, then empty ones. */
  function Trails(rows: seq<SeedRow>): (r: seq<seq<Node>>)
    ensures forall i :: 0 <= i < |r| ==> r[i] != []
  {
    if rows == [] then []
    else (if Kept(rows[0].nodes) == [] then [] else [Kept(rows[0].nodes)]) + Trails(rows[1..])
  }

  function OkCount(trail: seq<Node>): (r: nat)
    ensures r <= |trail|
  {
    if trail == [] then 0 else (if trail[0].ok then 1 else 0) + OkCount(trail[1..])
  }

  function FractionSum(trails: seq<seq<Node>>): (r: real)
    requires forall i :: 0 <= i < |trails| ==> trails[i] != []
  {
    if trails == [] then 0.0
    else OkCount(trails[0]) as real / |trails[0]| as real + FractionSum(trails[1..])
  }

  predicate HasTask(trail: seq<Node>, task: string) {
    exists i :: 0 <= i < |trail| && trail[i].task == task
  }

  /** The task occurs in the trail and all its nodes there are ok. */
  predicate TaskPasses(trail: seq<Node>, task: string) {
    HasTask(trail, task) && forall i :: 0 <= i < |trail| && trail[i].task == task ==> trail[i].ok
  }

  function Passes(trails: seq<seq<Node>>, task: string): (r: nat) {
    if trails == [] then 0
    else Passes(trails[..|trails| - 1], task) + if TaskPasses(trails[|trails| - 1], task) then 1 else 0
  }

  function TrailTasks(trail: seq<Node>): (r: set<string>) {
    set n | n in trail && n.task != "" :: n.task
  }

  function Tasks(trails: seq<seq<Node>>): (r: set<string>) {
    if trails == [] then {} else Tasks(trails[..|trails| - 1]) + TrailTasks(trails[|trails| - 1])
  }

  datatype Rates = Rates(rate: Option<real>, byTask: map<string, real>)

  /** `_rates`: the mean pass fraction, and for each task the fraction of trails it
      passes in; `rnd` stands for rounding to four places. */
  function RatesOf(rows: seq<SeedRow>, rnd: real -> real): (r: Rates) {
    var trails := Trails(rows);
    if trails == [] then Rates(None, map[])
    else
      Rates(Some(rnd(FractionSum(trails) / |trails| as real)),
            map t | t in Tasks(trails) :: rnd(Passes(trails, t) as real / |trails| as real))
  }

  /** Per trail, whether each task passes in it. */
  ghost predicate TrailTable(trail: seq<Node>, per: map<string, bool>) {
    && per.Keys == TrailTasks(trail)
    && forall t :: t in per ==> (per[t] <==> TaskPasses(trail, t))
  }

  lemma {:induction false} TrailTableSnoc(trail: seq<Node>, n: Node, per: map<string, bool>)
    requires TrailTable(trail, per)
    ensures n.task == "" ==> TrailTable(trail + [n], per)
    ensures n.task != "" ==>
      TrailTable(trail + [n], per[n.task := (if n.task in per then per[n.task] else true) && n.ok])
  {
    var all := trail + [n];
    assert all[|trail|] == n && forall i :: 0 <= i < |trail| ==> all[i] == trail[i];
    forall t | t != ""
      ensures TaskPasses(all, t) <==> if t == n.task then (HasTask(trail, t) ==> TaskPasses(trail, t)) && n.ok
                                      else TaskPasses(trail, t)
    {
      TaskPassesSnoc(trail, n, t);
    }
    forall t
      ensures t in TrailTasks(all) <==> t in TrailTasks(trail) || (t == n.task && t != "")
    {
      if t in TrailTasks(trail) {
        var m :| m in trail && m.task == t;
        assert m in all;
      }
      if t == n.task && t != "" {
        assert n in all;
      }
    }
    assert forall t :: t in per <==> t in TrailTasks(trail);
    forall t | t != ""
      ensures HasTask(trail, t) <==> t in per
    {
      if t in per {
        var m :| m in trail && m.task == t;
      }
    }
  }

  lemma {:induction false} TaskPassesSnoc(trail: seq<Node>, n: Node, t: string)
    ensures TaskPasses(trail + [n], t) <==>
      if t == n.task then (HasTask(trail, t) ==> TaskPasses(trail, t)) && n.ok else TaskPasses(trail, t)
  {
    var all := trail + [n];
    assert all[|trail|] == n && forall i :: 0 <= i < |trail| ==> all[i] == trail[i];
    assert HasTask(trail, t) ==> HasTask(all, t);
  }

  method TrailPasses(trail: seq<Node>) returns (per: map<string, bool>)
    ensures TrailTable(trail, per)
  {
    per := map[];
    for i := 0 to |trail|
      invariant TrailTable(trail[..i], per)
    {
      var n := trail[i];
      TrailTableSnoc(trail[..i], n, per);
      assert trail[..i + 1] == trail[..i] + [n];
      if n.task != "" {
        per := per[n.task := (if n.task in per then per[n.task] else true) && n.ok];
      }
    }
    assert trail[..|trail|] == trail;
  }

  ghost predicate PassTable(trails: seq<seq<Node>>, passes: map<string, nat>) {
    passes.Keys == Tasks(trails) && forall t :: t in passes ==> passes[t] == Passes(trails, t)
  }

  lemma {:induction false} AbsentTask(trails: seq<seq<Node>>, t: string)
    requires t != "" && t !in Tasks(trails)
    ensures Passes(trails, t) == 0
  {
    if trails != [] {
      AbsentTask(trails[..|trails| - 1], t);
      AbsentInTrail(trails[|trails| - 1], t);
    }
  }

  lemma {:induction false} AbsentInTrail(trail: seq<Node>, t: string)
    requires t != "" && t !in TrailTasks(trail)
    ensures !TaskPasses(trail, t)
  {
  }

  /** `passes[t] = passes.get(t, 0) + ok`, for every task of one trail. */
  function AddPasses(passes: map<string, nat>, per: map<string, bool>): (r: map<string, nat>) {
    map t | t in passes.Keys + per.Keys ::
      (if t in passes then passes[t] else 0) + (if t in per && per[t] then 1 else 0)
  }

  lemma {:induction false} AddPassesCorrect(trails: seq<seq<Node>>, trail: seq<Node>, passes: map<string, nat>,
                                            per: map<string, bool>)
    requires PassTable(trails, passes) && TrailTable(trail, per)
    ensures PassTable(trails + [trail], AddPasses(passes, per))
  {
    var all := trails + [trail];
    assert all[..|trails|] == trails && all[|trails|] == trail;
    assert AddPasses(passes, per).Keys == Tasks(all);
    forall t | t in AddPasses(passes, per)
      ensures AddPasses(passes, per)[t] == Passes(all, t)
    {
      TaskNamed(all, t);
      if t !in passes {
        AbsentTask(trails, t);
      }
      if t !in per {
        AbsentInTrail(trail, t);
      }
    }
  }

  lemma {:induction false} TaskNamed(trails: seq<seq<Node>>, t: string)
    requires t in Tasks(trails)
    ensures t != ""
  {
    if t !in TrailTasks(trails[|trails| - 1]) {
      TaskNamed(trails[..|trails| - 1], t);
    }
  }

  method CountPasses(trails: seq<seq<Node>>) returns (passes: map<string, nat>)
    ensures PassTable(trails, passes)
  {
    passes := map[];
    for i := 0 to |trails|
      invariant PassTable(trails[..i], passes)
    {
      var per := TrailPasses(trails[i]);
      AddPassesCorrect(trails[..i], trails[i], passes, per);
      assert trails[..i + 1] == trails[..i] + [trails[i]];
      passes := AddPasses(passes, per);
    }
    assert trails[..|trails|] == trails;
  }

  method ComputeRates(rows: seq<SeedRow>, rnd: real -> real) returns (r: Rates)
    ensures r == RatesOf(rows, rnd)
  {
    var trails := Trails(rows);
    if trails == [] {
      return Rates(None, map[]);
    }
    var passes := CountPasses(trails);
    r := Rates(Some(rnd(FractionSum(trails) / |trails| as real)),
               map t | t in passes :: rnd(passes[t] as real / |trails| as real));
  }

  // -------------------------------------------------------------- index rows

  predicate Indexed(k: Key) {
    match k
    case Before | After | Best | Parent | Outcome | Accepted | AcceptedReason | Published | BeforeScore | AfterScore
       | Usage | Proposer | Needs | Confirm | SuiteSha | Proposal | Ts | Workspace | Llm | Evaluation
       | Diagnosis => true
    case _ => false
  }

  const CUT := 300

  /** `v[:300]` for a string, anything else as it is. */
  function Cut(v: Json): (r: Json) {
    if v.JString? && |v.s| > CUT then JString(v.s[..CUT]) else v
  }

  predicate KeptDetail(k: DetailKey) {
    k.Summary? || k.Reason? || k.Error? || k.Files? || k.Tunables?
  }

  function CutDetail(d: map<DetailKey, Json>): (r: map<DetailKey, Json>) {
    map k | k in d && KeptDetail(k) :: Cut(d[k])
  }

  /** False when `index_row` raises: a truthy `tried` or `detail` that is not a dict. */
  predicate Archivable(r: Round) {
    !r.tried.Raw? && !(r.tried.Attempt? && r.tried.detail.Bare?)
  }

  function IndexTried(t: Tried): (r: Tried) {
    match t
    case Attempt(kind, node, Entries(d)) => Attempt(kind, node, Entries(CutDetail(d)))
    case Attempt(kind, node, _) => Attempt(kind, node, Entries(map[]))
    case _ => Attempt(JNull, JNull, Entries(map[]))
  }

  function Get(m: map<string, real>, t: string): (r: Option<real>) {
    if t in m then Some(m[t]) else None
  }

  function PerTask(before: map<string, real>, after: map<string, real>): (r: map<string, Pair>) {
    map t | t in before.Keys + after.Keys :: Pair(Get(before, t), Get(after, t))
  }

  function KeysOf(rows: seq<SeedRow>): (r: seq<SeedKeys>) {
    if rows == [] then [] else [rows[0].keys] + KeysOf(rows[1..])
  }

  /** `index_row`, of a row it does not raise on. */
  function IndexRow(r: Round, rnd: real -> real): (row: Row) {
    var b, a := RatesOf(r.perSeed, rnd), RatesOf(r.afterSeeds, rnd);
    Index(r.number, map k | k in r.fields && Indexed(k) :: r.fields[k], IndexTried(r.tried),
          Pair(b.rate, a.rate), PerTask(b.byTask, a.byTask), KeysOf(r.perSeed), KeysOf(r.afterSeeds))
  }

  const INDEX_KEYS: set<Key> := {
    Before, After, Best, Parent, Outcome, Accepted, AcceptedReason, Published, BeforeScore, AfterScore, Usage, Proposer,
    Needs, Confirm, SuiteSha, Proposal, Ts, Workspace, Llm, Evaluation, Diagnosis}

  lemma {:induction false} IndexedIs(k: Key)
    ensures Indexed(k) <==> k in INDEX_KEYS
  {
  }

  /** Which columns an index row keeps of its round. */
  lemma {:induction false} IndexRowColumns(r: Round, rnd: real -> real, k: Key)
    ensures IndexRow(r, rnd).Index? && IndexRow(r, rnd).number == r.number
    ensures k in IndexRow(r, rnd).fields <==> k in r.fields && k in INDEX_KEYS
    ensures k in IndexRow(r, rnd).fields ==> IndexRow(r, rnd).fields[k] == r.fields[k]
    ensures IndexRow(r, rnd).perSeed == KeysOf(r.perSeed) && IndexRow(r, rnd).afterSeeds == KeysOf(r.afterSeeds)
  {
    IndexedIs(k);
  }

  lemma {:induction false} SeedKeysAt(rows: seq<SeedRow>, i: nat)
    requires i < |rows|
    ensures |KeysOf(rows)| == |rows| && KeysOf(rows)[i] == rows[i].keys
  {
    if i > 0 {
      SeedKeysAt(rows[1..], i - 1);
    } else if |rows| > 1 {
      SeedKeysAt(rows[1..], 0);
    }
  }

  /** Of `tried` it keeps kind and node, and of the detail the summary, reason, error,
      files and tunables, a string cut to its first 300 characters. */
  lemma {:induction false} IndexDetail(kind: Json, node: Json, d: map<DetailKey, Json>, k: DetailKey)
    ensures IndexTried(Attempt(kind, node, Entries(d))).Attempt?
    ensures var t := IndexTried(Attempt(kind, node, Entries(d)));
            && t.kind == kind && t.node == node && t.detail.Entries?
            && (k in t.detail.entries <==> k in d && k in {Summary, Reason, Error, Files, Tunables})
            && (k in t.detail.entries ==>
                 && (!(d[k].JString? && |d[k].s| > 300) ==> t.detail.entries[k] == d[k])
                 && (d[k].JString? && |d[k].s| > 300 ==> t.detail.entries[k] == JString(d[k].s[..300])))
  {
  }

  // ----------------------------------------------------------------- readers

  /** Columns that appear only when the row has them. */
  predicate Optional(k: Key) {
    k.Evaluation? || k.Transfer? || k.Policy? || k.RunBudget? || k.CycleBudget? || k.CycleOutcome?
  }

  datatype SeriesRow = SeriesRow(number: int, scalars: map<Key, Json>, optional: map<Key, Json>, tried: Tried,
                                 rate: Pair, best: Option<real>, byTask: map<string, Pair>)

  const SCALARS: set<Key> := {Before, After, Best, Parent, Proposer, Outcome, Accepted, Published, Usage}

  function FieldsOf(r: Row): (m: map<Key, Json>) {
    if r.Full? then r.full.fields else r.fields
  }

  function NumberOf(r: Row): (n: int) {
    if r.Full? then r.full.number else r.number
  }

  /** `r.get(k)` for each of the scalar columns. */
  function Scalars(m: map<Key, Json>): (r: map<Key, Json>) {
    map k | k in SCALARS :: if k in m then m[k] else JNull
  }

  function Optionals(m: map<Key, Json>): (r: map<Key, Json>) {
    map k | k in m && Optional(k) :: m[k]
  }

  predicate ShownDetail(k: DetailKey) {
    k.Path? || k.From? || k.To? || k.Reason? || k.Error?
  }

  /** `_tried`: a dict keeps its kind, its node and the shown detail; anything else rides through. */
  function Shown(t: Tried): (r: Tried) {
    match t
    case Attempt(kind, node, Entries(d)) => Attempt(kind, node, Entries(map k | k in d && ShownDetail(k) :: d[k]))
    case _ => t
  }

  function TriedOf(r: Row): (t: Tried) {
    if r.Full? then r.full.tried else r.tried
  }

  function RatePair(r: Row, rnd: real -> real): (p: Pair) {
    if r.Full? then Pair(RatesOf(r.full.perSeed, rnd).rate, RatesOf(r.full.afterSeeds, rnd).rate) else r.nodeRate
  }

  function Befores(p: map<string, Pair>): (r: map<string, real>) {
    map t | t in p && p[t].before.Some? :: p[t].before.value
  }

  function Afters(p: map<string, Pair>): (r: map<string, real>) {
    map t | t in p && p[t].after.Some? :: p[t].after.value
  }

  function TaskPairs(r: Row, rnd: real -> real): (p: map<string, Pair>) {
    if r.Full? then PerTask(RatesOf(r.full.perSeed, rnd).byTask, RatesOf(r.full.afterSeeds, rnd).byTask)
    else PerTask(Befores(r.byTask), Afters(r.byTask))
  }

  /** The reading of a round: after it, or else before it. */
  function Reading(p: Pair): (r: Option<real>) {
    if p.after.Some? then p.after else p.before
  }

  /** The running best: the later reading, unless it is absent or no larger. */
  function Better(best: Option<real>, p: Pair): (r: Option<real>) {
    var cur := Reading(p);
    if best.None? || (cur.Some? && cur.value > best.value) then cur else best
  }

  /** A round is read after its change, or before it when nothing was measured after. */
  lemma {:induction false} ReadingIs(p: Pair)
    ensures p.after.Some? ==> Reading(p) == p.after
    ensures p.after.None? ==> Reading(p) == p.before
  {
  }

  /** A series line shows of the detail the path, from, to, reason and error. */
  lemma {:induction false} ShownIs(kind: Json, node: Json, d: map<DetailKey, Json>, k: DetailKey)
    ensures var t := Shown(Attempt(kind, node, Entries(d)));
            && t.Attempt? && t.kind == kind && t.node == node && t.detail.Entries?
            && (k in t.detail.entries <==> k in d && k in {Path, From, To, Reason, Error})
            && (k in t.detail.entries ==> t.detail.entries[k] == d[k])
  {
  }

  function BestAfter(rows: seq<Row>, rnd: real -> real): (r: Option<real>) {
    if rows == [] then None
    else Better(BestAfter(rows[..|rows| - 1], rnd), RatePair(rows[|rows| - 1], rnd))
  }

  /** The largest reading of the rows, None when they have none. */
  predicate LargestReading(best: Option<real>, rows: seq<Row>, rnd: real -> real) {
    && (best.Some? ==> exists i :: 0 <= i < |rows| && Reading(RatePair(rows[i], rnd)) == best)
    && forall i :: 0 <= i < |rows| && Reading(RatePair(rows[i], rnd)).Some? ==>
         best.Some? && Reading(RatePair(rows[i], rnd)).value <= best.value
  }

  lemma {:induction false} BestIsLargest(rows: seq<Row>, rnd: real -> real)
    ensures LargestReading(BestAfter(rows, rnd), rows, rnd)
  {
    if rows != [] {
      var k, best := |rows| - 1, BestAfter(rows, rnd);
      var before := BestAfter(rows[..k], rnd);
      BestIsLargest(rows[..k], rnd);
      assert forall i :: 0 <= i < k ==> rows[..k][i] == rows[i];
      if best.Some? && best != Reading(RatePair(rows[k], rnd)) {
        var i :| 0 <= i < k && Reading(RatePair(rows[..k][i], rnd)) == before;
        assert Reading(RatePair(rows[i], rnd)) == best;
      }
      forall i | 0 <= i < |rows| && Reading(RatePair(rows[i], rnd)).Some?
        ensures best.Some? && Reading(RatePair(rows[i], rnd)).value <= best.value
      {
        assert i < k ==> Reading(RatePair(rows[..k][i], rnd)).value <= before.value;
      }
    }
  }

  function Line(r: Row, best: Option<real>, rnd: real -> real): (s: SeriesRow) {
    SeriesRow(NumberOf(r), Scalars(FieldsOf(r)), Optionals(FieldsOf(r)), Shown(TriedOf(r)), RatePair(r, rnd), best,
              TaskPairs(r, rnd))
  }

  /** `_series`: one line per row, `best` the largest reading up to it. */
  method Series(rows: seq<Row>, rnd: real -> real) returns (out: seq<SeriesRow>)
    ensures |out| == |rows|
    ensures forall i :: 0 <= i < |rows| ==> out[i] == Line(rows[i], BestAfter(rows[..i + 1], rnd), rnd)
    ensures forall i :: 0 <= i < |rows| ==> LargestReading(out[i].best, rows[..i + 1], rnd)
  {
    out := [];
    var best: Option<real> := None;
    for i := 0 to |rows|
      invariant |out| == i && best == BestAfter(rows[..i], rnd)
      invariant forall j :: 0 <= j < i ==> out[j] == Line(rows[j], BestAfter(rows[..j + 1], rnd), rnd)
    {
      assert rows[..i + 1][..i] == rows[..i];
      best := Better(best, RatePair(rows[i], rnd));
      out := out + [Line(rows[i], best, rnd)];
    }
    forall i | 0 <= i < |rows|
      ensures LargestReading(out[i].best, rows[..i + 1], rnd)
    {
      BestIsLargest(rows[..i + 1], rnd);
    }
  }

  /** `_round`: the first row of this number, read from its file when archived; a
      missing file leaves the index row. */
  function RoundOf(rows: seq<Row>, shards: map<int, Round>, n: int): (r: Option<Row>) {
    if rows == [] then None
    else if NumberOf(rows[0]) != n then RoundOf(rows[1..], shards, n)
    else if rows[0].Index? && n in shards then Some(Full(shards[n]))
    else Some(rows[0])
  }

  // --------------------------------------------------- what sharding preserves

  /** The list entry is the round itself or its index row, and then its file is the round. */
  predicate Stands(row: Row, r: Round, shards: map<int, Round>, rnd: real -> real) {
    || row == Full(r)
    || (row == IndexRow(r, rnd) && Archivable(r) && r.number in shards && shards[r.number] == r)
  }

  predicate Faithful(rows: seq<Row>, history: seq<Round>, shards: map<int, Round>, rnd: real -> real) {
    && |rows| == |history|
    && forall i :: 0 <= i < |rows| ==> Stands(rows[i], history[i], shards, rnd)
  }

  predicate UniqueNumbers(history: seq<Round>) {
    forall i, j :: 0 <= i < j < |history| ==> history[i].number != history[j].number
  }

  function Whole(history: seq<Round>): (r: seq<Row>)
    ensures |r| == |history| && forall i :: 0 <= i < |history| ==> r[i] == Full(history[i])
  {
    if history == [] then [] else [Full(history[0])] + Whole(history[1..])
  }

  lemma {:induction false} PairsSurvive(before: map<string, real>, after: map<string, real>)
    ensures PerTask(Befores(PerTask(before, after)), Afters(PerTask(before, after))) == PerTask(before, after)
  {
    var p := PerTask(before, after);
    assert Befores(p) == before;
    assert Afters(p) == after;
  }

  lemma {:induction false} ScalarsSurvive(m: map<Key, Json>)
    ensures Scalars(map k | k in m && Indexed(k) :: m[k]) == Scalars(m)
  {
  }

  /** A line agrees with another in every column but `tried` and the optional ones
      that are not `evaluation`. */
  ghost predicate Alike(x: SeriesRow, y: SeriesRow) {
    && x.number == y.number && x.scalars == y.scalars && x.rate == y.rate && x.best == y.best && x.byTask == y.byTask
    && (Evaluation in x.optional <==> Evaluation in y.optional)
    && (Evaluation in x.optional ==> x.optional[Evaluation] == y.optional[Evaluation])
  }

  lemma {:induction false} StandsAlike(row: Row, r: Round, shards: map<int, Round>, rnd: real -> real,
                                       best: Option<real>)
    requires Stands(row, r, shards, rnd)
    ensures RatePair(row, rnd) == RatePair(Full(r), rnd)
    ensures Alike(Line(row, best, rnd), Line(Full(r), best, rnd))
  {
    if row != Full(r) {
      PairsSurvive(RatesOf(r.perSeed, rnd).byTask, RatesOf(r.afterSeeds, rnd).byTask);
      ScalarsSurvive(r.fields);
    }
  }

  lemma {:induction false} BestSurvives(rows: seq<Row>, history: seq<Round>, shards: map<int, Round>, rnd: real -> real)
    requires Faithful(rows, history, shards, rnd)
    ensures BestAfter(rows, rnd) == BestAfter(Whole(history), rnd)
  {
    if rows != [] {
      var k := |rows| - 1;
      BestSurvives(rows[..k], history[..k], shards, rnd);
      StandsAlike(rows[k], history[k], shards, rnd, None);
      assert Whole(history)[..k] == Whole(history[..k]);
    }
  }

  /** Sharding is invisible to the series: its lines agree with those of the whole
      history, the running best included. */
  lemma {:induction false} SeriesUnchanged(rows: seq<Row>, history: seq<Round>, shards: map<int, Round>,
                                           rnd: real -> real, i: nat)
    requires Faithful(rows, history, shards, rnd) && i < |rows|
    ensures Alike(Line(rows[i], BestAfter(rows[..i + 1], rnd), rnd),
                  Line(Whole(history)[i], BestAfter(Whole(history)[..i + 1], rnd), rnd))
  {
    BestSurvives(rows[..i + 1], history[..i + 1], shards, rnd);
    assert Whole(history)[..i + 1] == Whole(history[..i + 1]);
    StandsAlike(rows[i], history[i], shards, rnd, BestAfter(rows[..i + 1], rnd));
  }

  /** Every round is still read in full. */
  lemma {:induction false} RoundsReadInFull(rows: seq<Row>, history: seq<Round>, shards: map<int, Round>,
                                            rnd: real -> real, i: nat)
    requires Faithful(rows, history, shards, rnd) && UniqueNumbers(history) && i < |history|
    ensures RoundOf(rows, shards, history[i].number) == Some(Full(history[i]))
  {
    assert Stands(rows[0], history[0], shards, rnd);
    if i > 0 {
      assert forall j :: 0 <= j < |rows| - 1 ==> rows[1..][j] == rows[j + 1] && history[1..][j] == history[j + 1];
      RoundsReadInFull(rows[1..], history[1..], shards, rnd, i - 1);
    }
  }

  /** And no other number is found. */
  lemma {:induction false} NoOtherRound(rows: seq<Row>, history: seq<Round>, shards: map<int, Round>,
                                        rnd: real -> real, n: int)
    requires Faithful(rows, history, shards, rnd) && forall i :: 0 <= i < |history| ==> history[i].number != n
    ensures RoundOf(rows, shards, n) == None
  {
    if rows != [] {
      assert Stands(rows[0], history[0], shards, rnd);
      NoOtherRound(rows[1..], history[1..], shards, rnd, n);
    }
  }

  // ------------------------------------- what sharding does not preserve

  predicate Short(v: Json) {
    v.JString? ==> |v.s| <= CUT
  }

  /** No optional column but `evaluation`, and a `tried` whose shown detail is
      a short reason and a short error at most. */
  predicate KeepsLine(r: Round) {
    && (forall k :: k in r.fields && Optional(k) ==> k.Evaluation?)
    && r.tried.Attempt? && r.tried.detail.Entries?
    && forall k :: k in r.tried.detail.entries && ShownDetail(k) ==>
         (k.Reason? || k.Error?) && Short(r.tried.detail.entries[k])
  }

  function ShownEntries(d: map<DetailKey, Json>): (r: map<DetailKey, Json>) {
    map k | k in d && ShownDetail(k) :: d[k]
  }

  lemma {:induction false} CutShort(v: Json)
    ensures Cut(v) == v <==> Short(v)
  {
    if v.JString? && |v.s| > CUT {
      assert |v.s[..CUT]| == CUT;
    }
  }

  lemma {:induction false} DetailExactly(d: map<DetailKey, Json>)
    ensures ShownEntries(CutDetail(d)) == ShownEntries(d) <==>
      forall k :: k in d && ShownDetail(k) ==> (k.Reason? || k.Error?) && Short(d[k])
  {
    var x, y := ShownEntries(CutDetail(d)), ShownEntries(d);
    forall k | k in d && ShownDetail(k)
      ensures k in y && (k in x <==> k.Reason? || k.Error?)
      ensures k in x ==> (x[k] == y[k] <==> Short(d[k]))
    {
      CutShort(d[k]);
    }
    if forall k :: k in d && ShownDetail(k) ==> (k.Reason? || k.Error?) && Short(d[k]) {
      assert x == y;
    }
  }

  lemma {:induction false} OptionalsExactly(m: map<Key, Json>)
    ensures Optionals(map k | k in m && Indexed(k) :: m[k]) == Optionals(m) <==>
      forall k :: k in m && Optional(k) ==> k.Evaluation?
  {
    var x, y := Optionals(map k | k in m && Indexed(k) :: m[k]), Optionals(m);
    assert forall k :: k in y <==> k in m && Optional(k);
    assert forall k :: k in x <==> k in m && k.Evaluation?;
    if forall k :: k in m && Optional(k) ==> k.Evaluation? {
      assert x == y;
    }
  }

  lemma {:induction false} TriedExactly(t: Tried)
    requires !t.Raw? && !(t.Attempt? && t.detail.Bare?)
    ensures Shown(IndexTried(t)) == Shown(t) <==>
      t.Attempt? && t.detail.Entries? && ShownEntries(CutDetail(t.detail.entries)) == ShownEntries(t.detail.entries)
  {
  }

  /** The whole line survives archiving exactly for these rounds. */
  lemma {:induction false} LineExactly(r: Round, best: Option<real>, rnd: real -> real)
    requires Archivable(r)
    ensures Line(IndexRow(r, rnd), best, rnd) == Line(Full(r), best, rnd) <==> KeepsLine(r)
  {
    PairsSurvive(RatesOf(r.perSeed, rnd).byTask, RatesOf(r.afterSeeds, rnd).byTask);
    ScalarsSurvive(r.fields);
    OptionalsExactly(r.fields);
    TriedExactly(r.tried);
    if r.tried.Attempt? && r.tried.detail.Entries? {
      DetailExactly(r.tried.detail.entries);
    }
  }

  /** A round as the campaign writes it whose error is longer than the cut: the
      series shows the whole error until the round is archived. */
  lemma {:induction false} LongErrorIsCut(node: Json, error: string, rnd: real -> real, best: Option<real>)
    requires |error| > CUT
    ensures var r := Round(1, map[], Attempt(JString("edit"), node, Entries(map[Error := JString(error)])), [], []);
            && Archivable(r)
            && Line(Full(r), best, rnd).tried.detail == Entries(map[Error := JString(error)])
            && Line(IndexRow(r, rnd), best, rnd).tried.detail == Entries(map[Error := JString(error[..CUT])])
            && Line(IndexRow(r, rnd), best, rnd) != Line(Full(r), best, rnd)
  {
    var d := map[Error := JString(error)];
    var r := Round(1, map[], Attempt(JString("edit"), node, Entries(d)), [], []);
    assert CutDetail(d) == map[Error := JString(error[..CUT])];
    assert ShownEntries(d) == d;
    assert ShownEntries(CutDetail(d)) == CutDetail(d);
    assert |error[..CUT]| < |error|;
    assert !KeepsLine(r) by { assert !Short(d[Error]); }
    LineExactly(r, best, rnd);
  }

  /** A column the index row drops: the series shows `transfer` until the round is archived. */
  lemma {:induction false} TransferIsLost(rnd: real -> real, best: Option<real>)
    ensures var r := Round(1, map[Transfer := JBool(true)], Attempt(JNull, JNull, Entries(map[])), [], []);
            Archivable(r) && Transfer in Line(Full(r), best, rnd).optional
            && Transfer !in Line(IndexRow(r, rnd), best, rnd).optional
  {
  }

  // ---------------------------------------------------------------- the store

  const ROUNDS_KEPT := 20

  predicate FilesKnown(shards: map<int, Round>, history: seq<Round>) {
    forall n :: n in shards ==> InHistory(history, n, shards[n])
  }

  predicate InHistory(history: seq<Round>, n: int, r: Round) {
    exists i :: 0 <= i < |history| && history[i] == r && r.number == n
  }

  lemma {:induction false} FaithfulGrows(rows: seq<Row>, history: seq<Round>, shards: map<int, Round>,
                                         more: map<int, Round>, rnd: real -> real)
    requires Faithful(rows, history, shards, rnd) && forall n :: n in shards ==> n in more && more[n] == shards[n]
    ensures Faithful(rows, history, more, rnd)
  {
    forall i | 0 <= i < |rows|
      ensures Stands(rows[i], history[i], more, rnd)
    {
      assert Stands(rows[i], history[i], shards, rnd);
    }
  }

  /** A file that already bears the round's number holds that very round. */
  lemma {:induction false} FileIsRound(history: seq<Round>, shards: map<int, Round>, i: nat)
    requires UniqueNumbers(history) && FilesKnown(shards, history) && i < |history| && history[i].number in shards
    ensures shards[history[i].number] == history[i]
  {
    var n := history[i].number;
    assert InHistory(history, n, shards[n]);
    var j :| 0 <= j < |history| && history[j] == shards[n] && shards[n].number == n;
  }

  function FilesWith(shards: map<int, Round>, r: Round): (more: map<int, Round>) {
    if r.number in shards then shards else shards[r.number := r]
  }

  lemma {:induction false} FilesGrow(rows: seq<Row>, saved: seq<Row>, history: seq<Round>, shards: map<int, Round>,
                                     rnd: real -> real, i: nat)
    requires UniqueNumbers(history) && FilesKnown(shards, history) && i < |history| && |saved| <= |history|
    requires Faithful(rows, history, shards, rnd) && Faithful(saved, history[..|saved|], shards, rnd)
    ensures var more := FilesWith(shards, history[i]);
            && Faithful(rows, history, more, rnd) && Faithful(saved, history[..|saved|], more, rnd)
            && FilesKnown(more, history) && history[i].number in more && more[history[i].number] == history[i]
  {
    var more := FilesWith(shards, history[i]);
    if history[i].number in shards {
      FileIsRound(history, shards, i);
    }
    FaithfulGrows(rows, history, shards, more, rnd);
    FaithfulGrows(saved, history[..|saved|], shards, more, rnd);
    forall n | n in more
      ensures InHistory(history, n, more[n])
    {
      assert n in shards ==> InHistory(history, n, shards[n]);
      assert n !in shards ==> history[i] == more[n];
    }
  }

  lemma {:induction false} ReplaceKeeps(rows: seq<Row>, history: seq<Round>, shards: map<int, Round>,
                                        rnd: real -> real, i: nat)
    requires Faithful(rows, history, shards, rnd) && i < |rows| && Archivable(history[i])
    requires history[i].number in shards && shards[history[i].number] == history[i]
    ensures Faithful(rows[i := IndexRow(history[i], rnd)], history, shards, rnd)
  {
    var next := rows[i := IndexRow(history[i], rnd)];
    forall j | 0 <= j < |next|
      ensures Stands(next[j], history[j], shards, rnd)
    {
      assert Stands(rows[j], history[j], shards, rnd);
    }
  }

  class EvolveStore {
    /** The document's `rounds` list, the files `rounds/<n>.json` and the list last written to campaign.json. */
    var rows: seq<Row>
    var shards: map<int, Round>
    var saved: seq<Row>
    const rnd: real -> real
    /** The rounds as they were appended. */
    ghost var history: seq<Round>

    ghost predicate Valid()
      reads this
    {
      && UniqueNumbers(history) && FilesKnown(shards, history)
      && Faithful(rows, history, shards, rnd)
      && (forall i :: 0 <= i < |rows| && rows[i].Index? ==> i < |rows| - ROUNDS_KEPT)
      && |saved| <= |history| && Faithful(saved, history[..|saved|], shards, rnd)
    }

    /** A fresh directory. */
    constructor (rnd: real -> real)
      ensures Valid() && rows == [] && shards == map[] && saved == [] && history == [] && this.rnd == rnd
    {
      rows, shards, saved, history := [], map[], [], [];
      this.rnd := rnd;
    }

    method Append(r: Round)
      requires Valid() && forall i :: 0 <= i < |history| ==> history[i].number != r.number
      modifies this
      ensures Valid() && history == old(history) + [r] && rows == old(rows) + [Full(r)]
      ensures shards == old(shards) && saved == old(saved)
    {
      ghost var was := history;
      rows, history := rows + [Full(r)], history + [r];
      assert history[..|saved|] == was[..|saved|];
      forall n | n in shards
        ensures InHistory(history, n, shards[n])
      {
        assert InHistory(was, n, shards[n]);
        var i :| 0 <= i < |was| && was[i] == shards[n] && shards[n].number == n;
        assert history[i] == shards[n];
      }
      forall i | 0 <= i < |rows|
        ensures Stands(rows[i], history[i], shards, rnd)
      {
        assert i < |was| ==> Stands(rows[i], was[i], shards, rnd);
      }
    }

    /** Writes the round's file once; None when the index row cannot be built. */
    method Archive(r: Round) returns (row: Option<Row>)
      modifies this`shards
      ensures shards == FilesWith(old(shards), r)
      ensures row == if Archivable(r) then Some(IndexRow(r, rnd)) else None
    {
      if r.number !in shards {
        shards := shards[r.number := r];
      }
      row := if Archivable(r) then Some(IndexRow(r, rnd)) else None;
    }

    /** One turn of the loop of `save` keeps the store valid whether or not it raises. */
    method SaveAt(i: nat) returns (raised: bool)
      requires Valid() && i < |rows| - ROUNDS_KEPT
      modifies this`rows, this`shards
      ensures Valid() && |rows| == |old(rows)| && (forall j :: 0 <= j < |rows| && j != i ==> rows[j] == old(rows)[j])
      ensures raised <==> old(rows)[i].Full? && !Archivable(old(rows)[i].full)
      ensures rows[i] == if old(rows)[i].Full? && !raised then IndexRow(old(rows)[i].full, rnd) else old(rows)[i]
      ensures forall n :: n in old(shards) ==> n in shards && shards[n] == old(shards)[n]
    {
      raised := false;
      if rows[i].Full? {
        assert Stands(rows[i], history[i], shards, rnd);
        FilesGrow(rows, saved, history, shards, rnd, i);
        var row := Archive(rows[i].full);
        raised := row.None?;
        if row.Some? {
          ReplaceKeeps(rows, history, shards, rnd, i);
          rows := rows[i := row.value];
        }
      }
    }

    /** `save`: everything but the last rounds stands as index rows, and the list is
        written, unless some row to archive makes `index_row` raise. */
    method Save() returns (raised: bool)
      requires Valid()
      modifies this`rows, this`shards, this`saved
      ensures Valid() && |rows| == |old(rows)|
      ensures raised <==>
        exists i :: 0 <= i < |rows| - ROUNDS_KEPT && old(rows)[i].Full? && !Archivable(old(rows)[i].full)
      ensures raised ==> saved == old(saved)
      ensures !raised ==> saved == rows
      ensures !raised ==> forall i :: 0 <= i < |rows| ==> (rows[i].Index? <==> i < |rows| - ROUNDS_KEPT)
      ensures forall n :: n in old(shards) ==> n in shards && shards[n] == old(shards)[n]
    {
      raised := false;
      var i := 0;
      while i < |rows| - ROUNDS_KEPT
        invariant Valid() && |rows| == |old(rows)| && saved == old(saved) && 0 <= i
        invariant forall j :: 0 <= j < |rows| && j < i && j < |rows| - ROUNDS_KEPT ==> rows[j].Index?
        invariant forall j :: 0 <= j < |rows| && j < i && j < |rows| - ROUNDS_KEPT ==>
          !(old(rows)[j].Full? && !Archivable(old(rows)[j].full))
        invariant forall j :: i <= j < |rows| ==> rows[j] == old(rows)[j]
        invariant forall n :: n in old(shards) ==> n in shards && shards[n] == old(shards)[n]
        decreases |rows| - i
      {
        raised := SaveAt(i);
        if raised {
          return;
        }
        i := i + 1;
      }
      saved := rows;
      assert history[..|saved|] == history;
    }
  }
}
