/** The paired comparison of scripts/evolve.py: milestones, gains, regressions and
    acceptance, and acceptance as a potential argument over whole campaigns. */
module Acceptance {
  import Sorting

  /** `ok` is true only for a literal True. */
  datatype Node = Node(id: string, verify: bool, ok: bool)

  datatype Row = Row(trail: seq<Node>, success: bool)

  datatype Entry = Entry(seed: string, row: Row)

  /** The suite's seeds in insertion order. */
  type Suite = seq<Entry>

  predicate UniqueSeeds(s: Suite) {
    forall i, j :: 0 <= i < j < |s| ==> s[i].seed != s[j].seed
  }

  // -------------------------------------------------------------- milestones

  function VerifyNodes(trail: seq<Node>): (r: seq<Node>) {
    if trail == [] then []
    else VerifyNodes(trail[..|trail| - 1]) + if trail[|trail| - 1].verify then [trail[|trail| - 1]] else []
  }

  /** The verify nodes, or every node when there is none. */
  function Judged(row: Row): (r: seq<Node>) {
    if VerifyNodes(row.trail) == [] then row.trail else VerifyNodes(row.trail)
  }

  function Verdicts(nodes: seq<Node>): (r: map<string, bool>) {
    if nodes == [] then map[]
    else
      var last := nodes[|nodes| - 1];
      Verdicts(nodes[..|nodes| - 1])[last.id := last.ok]
  }

  const TASK := "task"

  function Milestones(row: Row): (r: map<string, bool>) {
    Verdicts(Judged(row))[TASK := row.success]
  }

  function Trues(m: map<string, bool>): (r: set<string>) {
    set k | k in m && m[k]
  }

  function Passed(row: Row): (r: set<string>) {
    Trues(Milestones(row))
  }

  /** The last judged node with this id is ok. */
  predicate LastOk(nodes: seq<Node>, k: string) {
    exists i :: 0 <= i < |nodes| && nodes[i].id == k && nodes[i].ok && NoneAfter(nodes, i, k)
  }

  predicate NoneAfter(nodes: seq<Node>, i: int, k: string) {
    forall j :: i < j < |nodes| && 0 <= j ==> nodes[j].id != k
  }

  lemma {:induction false} NoneAfterSnoc(init: seq<Node>, last: Node, i: nat, k: string)
    requires i < |init|
    ensures NoneAfter(init + [last], i, k) <==> NoneAfter(init, i, k) && last.id != k
  {
    var nodes := init + [last];
    assert nodes[|init|] == last;
    assert forall j :: 0 <= j < |init| ==> nodes[j] == init[j];
  }

  lemma {:induction false} LastOkSnoc(init: seq<Node>, last: Node, k: string)
    ensures LastOk(init + [last], k) <==> if last.id == k then last.ok else LastOk(init, k)
  {
    var nodes := init + [last];
    if LastOk(nodes, k) {
      var i :| 0 <= i < |nodes| && nodes[i].id == k && nodes[i].ok && NoneAfter(nodes, i, k);
      if i < |init| {
        NoneAfterSnoc(init, last, i, k);
      }
    }
    if last.id == k && last.ok {
      assert nodes[|init|] == last && NoneAfter(nodes, |init|, k);
    }
    if last.id != k && LastOk(init, k) {
      var i :| 0 <= i < |init| && init[i].id == k && init[i].ok && NoneAfter(init, i, k);
      NoneAfterSnoc(init, last, i, k);
      assert nodes[i] == init[i];
    }
  }

  predicate HasNode(nodes: seq<Node>, k: string) {
    exists i :: 0 <= i < |nodes| && nodes[i].id == k
  }

  lemma {:induction false} HasNodeSnoc(init: seq<Node>, last: Node, k: string)
    ensures HasNode(init + [last], k) <==> HasNode(init, k) || last.id == k
  {
    var nodes := init + [last];
    assert nodes[|init|] == last;
    if HasNode(init, k) {
      var i :| 0 <= i < |init| && init[i].id == k;
      assert nodes[i].id == k;
    }
  }

  lemma {:induction false} VerdictMeaning(nodes: seq<Node>, k: string)
    ensures k in Verdicts(nodes) <==> HasNode(nodes, k)
    ensures k in Verdicts(nodes) && Verdicts(nodes)[k] <==> LastOk(nodes, k)
  {
    if nodes != [] {
      var init, last := nodes[..|nodes| - 1], nodes[|nodes| - 1];
      VerdictMeaning(init, k);
      LastOkSnoc(init, last, k);
      HasNodeSnoc(init, last, k);
      assert nodes == init + [last];
    }
  }

  /** The i-th node of the trail is judged: it is a verify node, or there is none. */
  predicate Counts(trail: seq<Node>, i: nat)
    requires i < |trail|
  {
    trail[i].verify || forall j :: 0 <= j < |trail| ==> !trail[j].verify
  }

  predicate Reached(trail: seq<Node>, k: string) {
    exists i :: 0 <= i < |trail| && trail[i].id == k && Counts(trail, i)
  }

  /** The i-th node is the last of its id that counts, and it is ok. */
  predicate DecidesOk(trail: seq<Node>, i: nat)
    requires i < |trail|
  {
    Counts(trail, i) && trail[i].ok && forall j :: i < j < |trail| && trail[j].id == trail[i].id ==> !Counts(trail, j)
  }

  predicate ReachedOk(trail: seq<Node>, k: string) {
    exists i :: 0 <= i < |trail| && trail[i].id == k && DecidesOk(trail, i)
  }

  // The same among the verify nodes.

  predicate Verified(trail: seq<Node>, k: string) {
    exists i :: 0 <= i < |trail| && trail[i].id == k && trail[i].verify
  }

  predicate VerifiedOkAt(trail: seq<Node>, i: nat, k: string)
    requires i < |trail|
  {
    && trail[i].id == k && trail[i].verify && trail[i].ok
    && forall j :: i < j < |trail| && trail[j].id == k ==> !trail[j].verify
  }

  predicate VerifiedOk(trail: seq<Node>, k: string) {
    exists i :: 0 <= i < |trail| && VerifiedOkAt(trail, i, k)
  }

  lemma {:induction false} VerifiedSnoc(init: seq<Node>, last: Node, k: string)
    ensures Verified(init + [last], k) <==> Verified(init, k) || (last.id == k && last.verify)
    ensures VerifiedOk(init + [last], k) <==> if last.id == k && last.verify then last.ok else VerifiedOk(init, k)
  {
    var trail := init + [last];
    assert trail[|init|] == last && forall i :: 0 <= i < |init| ==> trail[i] == init[i];
    if Verified(init, k) {
      var i :| 0 <= i < |init| && init[i].id == k && init[i].verify;
      assert trail[i].verify;
    }
    if VerifiedOk(trail, k) && !(last.id == k && last.verify) {
      var i :| 0 <= i < |trail| && VerifiedOkAt(trail, i, k);
      assert VerifiedOkAt(init, i, k);
    }
    if last.id == k && last.verify && last.ok {
      assert VerifiedOkAt(trail, |init|, k);
    }
    if VerifiedOk(init, k) && !(last.id == k && last.verify) {
      var i :| 0 <= i < |init| && VerifiedOkAt(init, i, k);
      assert VerifiedOkAt(trail, i, k);
    }
  }

  lemma {:induction false} VerifyNodesAre(trail: seq<Node>, k: string)
    ensures VerifyNodes(trail) == [] <==> forall j :: 0 <= j < |trail| ==> !trail[j].verify
    ensures HasNode(VerifyNodes(trail), k) <==> Verified(trail, k)
    ensures LastOk(VerifyNodes(trail), k) <==> VerifiedOk(trail, k)
  {
    if trail != [] {
      var init, last := trail[..|trail| - 1], trail[|trail| - 1];
      VerifyNodesAre(init, k);
      assert trail == init + [last];
      VerifiedSnoc(init, last, k);
      if last.verify {
        HasNodeSnoc(VerifyNodes(init), last, k);
        LastOkSnoc(VerifyNodes(init), last, k);
        assert VerifyNodes(trail) == VerifyNodes(init) + [last];
      } else {
        assert VerifyNodes(trail) == VerifyNodes(init);
      }
    }
  }

  lemma {:induction false} JudgedVerify(trail: seq<Node>, k: string)
    requires exists j :: 0 <= j < |trail| && trail[j].verify
    ensures Reached(trail, k) <==> Verified(trail, k)
    ensures ReachedOk(trail, k) <==> VerifiedOk(trail, k)
  {
    assert forall i :: 0 <= i < |trail| ==> (Counts(trail, i) <==> trail[i].verify);
    if ReachedOk(trail, k) {
      var i :| 0 <= i < |trail| && trail[i].id == k && DecidesOk(trail, i);
      assert VerifiedOkAt(trail, i, k);
    }
    if VerifiedOk(trail, k) {
      var i :| 0 <= i < |trail| && VerifiedOkAt(trail, i, k);
      assert DecidesOk(trail, i);
    }
  }

  lemma {:induction false} JudgedAll(trail: seq<Node>, k: string)
    requires forall j :: 0 <= j < |trail| ==> !trail[j].verify
    ensures Reached(trail, k) <==> HasNode(trail, k)
    ensures ReachedOk(trail, k) <==> LastOk(trail, k)
  {
    assert forall i :: 0 <= i < |trail| ==> Counts(trail, i);
    if ReachedOk(trail, k) {
      var i :| 0 <= i < |trail| && trail[i].id == k && DecidesOk(trail, i);
      assert NoneAfter(trail, i, k);
    }
    if LastOk(trail, k) {
      var i :| 0 <= i < |trail| && trail[i].id == k && trail[i].ok && NoneAfter(trail, i, k);
      assert DecidesOk(trail, i);
    }
  }

  /** What a milestone says: the task's own outcome, or the last node of that id among
      the verify nodes of the trail, or among all nodes when it has no verify node. */
  lemma {:induction false} MilestoneMeaning(row: Row, k: string)
    ensures k in Milestones(row) <==> k == TASK || Reached(row.trail, k)
    ensures k in Passed(row) <==> if k == TASK then row.success else ReachedOk(row.trail, k)
  {
    VerdictMeaning(Judged(row), k);
    VerifyNodesAre(row.trail, k);
    if VerifyNodes(row.trail) == [] {
      JudgedAll(row.trail, k);
    } else {
      JudgedVerify(row.trail, k);
    }
  }

  // --------------------------------------------------------------- totals

  /** A missing row passes nothing. */
  function RowOf(s: Suite, seed: string): (r: Row) {
    if s == [] then Row([], false)
    else if s[0].seed == seed then s[0].row
    else RowOf(s[1..], seed)
  }

  lemma {:induction false} RowAt(s: Suite, i: nat)
    requires UniqueSeeds(s) && i < |s|
    ensures RowOf(s, s[i].seed) == s[i].row
  {
    if i > 0 {
      assert s[1..][i - 1] == s[i];
      RowAt(s[1..], i - 1);
    }
  }

  /** A seed without a row passes nothing and finishes nothing. */
  lemma {:induction false} RowMissing(s: Suite, seed: string)
    requires forall i :: 0 <= i < |s| ==> s[i].seed != seed
    ensures Passed(RowOf(s, seed)) == {} && !RowOf(s, seed).success
  {
    if s == [] {
      forall k
        ensures k !in Passed(RowOf(s, seed))
      {
        MilestoneMeaning(RowOf(s, seed), k);
      }
    } else {
      RowMissing(s[1..], seed);
    }
  }

  function SeedsOf(s: Suite): (r: seq<string>)
    ensures |r| == |s| && forall i :: 0 <= i < |s| ==> r[i] == s[i].seed
  {
    if s == [] then [] else [s[0].seed] + SeedsOf(s[1..])
  }

  function PassedAt(s: Suite, seed: string): (r: set<string>) {
    Passed(RowOf(s, seed))
  }

  function Total(seeds: seq<string>, s: Suite): (r: nat) {
    if seeds == [] then 0
    else Total(seeds[..|seeds| - 1], s) + |PassedAt(s, seeds[|seeds| - 1])|
  }

  function Done(seeds: seq<string>, s: Suite): (r: nat) {
    if seeds == [] then 0
    else Done(seeds[..|seeds| - 1], s) + if RowOf(s, seeds[|seeds| - 1]).success then 1 else 0
  }

  /** Milestones passed in `b` and not in `a`, over these seeds. */
  function Gained(seeds: seq<string>, a: Suite, b: Suite): (r: nat) {
    if seeds == [] then 0
    else
      var seed := seeds[|seeds| - 1];
      Gained(seeds[..|seeds| - 1], a, b) + |PassedAt(b, seed) - PassedAt(a, seed)|
  }

  lemma {:induction false} Difference(a: set<string>, b: set<string>)
    ensures |b| - |a| == |b - a| - |a - b|
  {
    assert b == (b - a) + (a * b) && a == (a - b) + (a * b);
  }

  /** Passed milestones after minus before equals gains minus regressions. */
  lemma {:induction false} Balance(seeds: seq<string>, a: Suite, b: Suite)
    ensures Total(seeds, b) - Total(seeds, a) == Gained(seeds, a, b) - Gained(seeds, b, a)
  {
    if seeds != [] {
      Balance(seeds[..|seeds| - 1], a, b);
      Difference(PassedAt(a, seeds[|seeds| - 1]), PassedAt(b, seeds[|seeds| - 1]));
    }
  }

  ghost predicate Accepts(before: Suite, after: Suite) {
    var seeds := SeedsOf(before);
    Total(seeds, after) > Total(seeds, before) && Done(seeds, after) >= Done(seeds, before)
  }

  // -------------------------------------------------------------- compare

  /** `gains` and `regressions` hold (seed, milestone) pairs. */
  datatype Verdict = Verdict(gains: seq<(string, string)>, regressions: seq<(string, string)>, lost: seq<string>,
                             done: (int, int), accepted: bool)

  /** The list pairs the seed with exactly these milestones, each once. */
  ghost predicate Lists(pairs: seq<(string, string)>, seed: string, keys: set<string>) {
    && |pairs| == |keys|
    && forall p :: p in pairs <==> p.0 == seed && p.1 in keys
  }

  lemma {:induction false} ListsMore(pairs: seq<(string, string)>, seed: string, keys: set<string>, k: string)
    requires Lists(pairs, seed, keys) && k !in keys
    ensures Lists(pairs + [(seed, k)], seed, keys + {k})
  {
  }

  /** Their milestones in strictly ascending string order. */
  predicate KeysAscend(pairs: seq<(string, string)>) {
    forall i, j :: 0 <= i < j < |pairs| ==> Sorting.TextLe(pairs[i].1, pairs[j].1) && pairs[i].1 != pairs[j].1
  }

  /** `sorted(set)`. */
  method SortedKeys(s: set<string>) returns (keys: seq<string>)
    ensures Sorting.Ascending(keys, Sorting.TextLe) && forall k :: k in keys <==> k in s
  {
    var rest, listed := s, [];
    while rest != {}
      invariant rest <= s && forall k :: k in listed <==> k in s - rest
      decreases |rest|
    {
      var k :| k in rest;
      rest, listed := rest - {k}, listed + [k];
    }
    Sorting.TextOrder();
    Sorting.SortedSetCorrect(listed, Sorting.TextLe);
    keys := Sorting.SortedSet(listed, Sorting.TextLe);
  }

  predicate Holds(m: map<string, bool>, k: string) {
    k in m && m[k]
  }

  /** The keys that hold in `ma` and not in `mb`, paired with the seed. */
  function Picked(seed: string, keys: seq<string>, mb: map<string, bool>, ma: map<string, bool>):
    (r: seq<(string, string)>)
  {
    if keys == [] then []
    else
      var k := keys[|keys| - 1];
      Picked(seed, keys[..|keys| - 1], mb, ma) + if Holds(ma, k) && !Holds(mb, k) then [(seed, k)] else []
  }

  function PickedKeys(keys: seq<string>, mb: map<string, bool>, ma: map<string, bool>): (r: set<string>) {
    set k | k in keys && Holds(ma, k) && !Holds(mb, k)
  }

  lemma {:induction false} LastIsNew(keys: seq<string>, k: string)
    requires Sorting.Ascending(keys + [k], Sorting.TextLe)
    ensures Sorting.Ascending(keys, Sorting.TextLe) && k !in keys
    ensures forall x :: x in keys ==> Sorting.TextLe(x, k) && x != k
  {
    var all := keys + [k];
    assert all[|keys|] == k && forall i :: 0 <= i < |keys| ==> all[i] == keys[i];
    forall x | x in keys
      ensures Sorting.TextLe(x, k) && x != k
    {
      var j :| 0 <= j < |keys| && keys[j] == x;
      assert all[j] == x;
    }
  }

  lemma {:induction false} PickedSnoc(seed: string, keys: seq<string>, k: string, mb: map<string, bool>,
                                      ma: map<string, bool>)
    ensures Picked(seed, keys + [k], mb, ma) ==
      Picked(seed, keys, mb, ma) + if Holds(ma, k) && !Holds(mb, k) then [(seed, k)] else []
    ensures PickedKeys(keys + [k], mb, ma) ==
      PickedKeys(keys, mb, ma) + if Holds(ma, k) && !Holds(mb, k) then {k} else {}
  {
    assert (keys + [k])[..|keys|] == keys;
  }

  lemma {:induction false} PickedLists(seed: string, keys: seq<string>, mb: map<string, bool>, ma: map<string, bool>)
    requires Sorting.Ascending(keys, Sorting.TextLe)
    ensures Lists(Picked(seed, keys, mb, ma), seed, PickedKeys(keys, mb, ma))
  {
    if keys != [] {
      var init, k := keys[..|keys| - 1], keys[|keys| - 1];
      assert keys == init + [k];
      LastIsNew(init, k);
      PickedLists(seed, init, mb, ma);
      PickedSnoc(seed, init, k, mb, ma);
      if Holds(ma, k) && !Holds(mb, k) {
        ListsMore(Picked(seed, init, mb, ma), seed, PickedKeys(init, mb, ma), k);
      } else {
        assert PickedKeys(keys, mb, ma) == PickedKeys(init, mb, ma);
      }
    }
  }

  lemma {:induction false} AscendSnoc(pairs: seq<(string, string)>, seed: string, k: string)
    requires KeysAscend(pairs) && forall p :: p in pairs ==> Sorting.TextLe(p.1, k) && p.1 != k
    ensures KeysAscend(pairs + [(seed, k)])
  {
    assert forall i :: 0 <= i < |pairs| ==> pairs[i] in pairs;
  }

  lemma {:induction false} PickedAscend(seed: string, keys: seq<string>, mb: map<string, bool>, ma: map<string, bool>)
    requires Sorting.Ascending(keys, Sorting.TextLe)
    ensures KeysAscend(Picked(seed, keys, mb, ma))
  {
    if keys != [] {
      var init, k := keys[..|keys| - 1], keys[|keys| - 1];
      assert keys == init + [k];
      LastIsNew(init, k);
      PickedAscend(seed, init, mb, ma);
      PickedLists(seed, init, mb, ma);
      PickedSnoc(seed, init, k, mb, ma);
      AscendSnoc(Picked(seed, init, mb, ma), seed, k);
    }
  }

  lemma {:induction false} PickedAll(keys: seq<string>, mb: map<string, bool>, ma: map<string, bool>)
    requires forall k :: k in ma.Keys ==> k in keys
    ensures PickedKeys(keys, mb, ma) == Trues(ma) - Trues(mb)
  {
  }

  /** The inner loop over the sorted keys. */
  method CompareKeys(seed: string, mb: map<string, bool>, ma: map<string, bool>)
    returns (gains: seq<(string, string)>, losses: seq<(string, string)>)
    ensures Lists(gains, seed, Trues(ma) - Trues(mb)) && KeysAscend(gains)
    ensures Lists(losses, seed, Trues(mb) - Trues(ma)) && KeysAscend(losses)
  {
    gains, losses := [], [];
    var keys := SortedKeys(mb.Keys + ma.Keys);
    for i := 0 to |keys|
      invariant gains == Picked(seed, keys[..i], mb, ma) && losses == Picked(seed, keys[..i], ma, mb)
    {
      var k := keys[i];
      assert keys[..i + 1][..i] == keys[..i];
      if Holds(ma, k) && !Holds(mb, k) {
        gains := gains + [(seed, k)];
      } else if Holds(mb, k) && !Holds(ma, k) {
        losses := losses + [(seed, k)];
      }
    }
    assert keys[..|keys|] == keys;
    PickedLists(seed, keys, mb, ma);
    PickedLists(seed, keys, ma, mb);
    PickedAscend(seed, keys, mb, ma);
    PickedAscend(seed, keys, ma, mb);
    PickedAll(keys, mb, ma);
    PickedAll(keys, ma, mb);
  }

  /** Seed by seed, and within a seed by ascending milestone. */
  ghost predicate Sequenced(pairs: seq<(string, string)>, seeds: seq<string>) {
    forall i, j :: 0 <= i < j < |pairs| ==> Follows(seeds, pairs[i], pairs[j])
  }

  ghost predicate Follows(seeds: seq<string>, p: (string, string), q: (string, string)) {
    || (p.0 == q.0 && Sorting.TextLe(p.1, q.1) && p.1 != q.1)
    || exists a, b :: 0 <= a < b < |seeds| && seeds[a] == p.0 && seeds[b] == q.0
  }

  lemma {:induction false} FollowsSnoc(seeds: seq<string>, seed: string, p: (string, string), q: (string, string))
    ensures Follows(seeds, p, q) ==> Follows(seeds + [seed], p, q)
    ensures p.0 in seeds && q.0 == seed ==> Follows(seeds + [seed], p, q)
  {
    var all := seeds + [seed];
    assert all[|seeds|] == seed && forall i :: 0 <= i < |seeds| ==> all[i] == seeds[i];
    if p.0 in seeds && q.0 == seed {
      var a :| 0 <= a < |seeds| && seeds[a] == p.0;
      assert all[a] == p.0;
    }
  }

  lemma {:induction false} SequencedSnoc(pairs: seq<(string, string)>, more: seq<(string, string)>, seeds: seq<string>,
                                         seed: string)
    requires Sequenced(pairs, seeds) && (forall p :: p in pairs ==> p.0 in seeds)
    requires KeysAscend(more) && forall p :: p in more ==> p.0 == seed
    ensures Sequenced(pairs + more, seeds + [seed])
  {
    var all := pairs + more;
    forall i, j | 0 <= i < j < |all|
      ensures Follows(seeds + [seed], all[i], all[j])
    {
      FollowsSnoc(seeds, seed, all[i], all[j]);
      if j >= |pairs| {
        assert all[j] in more;
        if i < |pairs| {
          assert all[i] in pairs;
        } else {
          assert all[i] in more;
        }
      }
    }
  }

  ghost predicate ListsAll(pairs: seq<(string, string)>, seeds: seq<string>, a: Suite, b: Suite) {
    && |pairs| == Gained(seeds, a, b) && Sequenced(pairs, seeds)
    && forall p :: p in pairs <==> p.0 in seeds && p.1 in PassedAt(b, p.0) - PassedAt(a, p.0)
  }

  lemma {:induction false} ListsSnoc(pairs: seq<(string, string)>, more: seq<(string, string)>, seeds: seq<string>,
                                     seed: string, a: Suite, b: Suite)
    requires ListsAll(pairs, seeds, a, b) && Lists(more, seed, PassedAt(b, seed) - PassedAt(a, seed))
    requires KeysAscend(more)
    ensures ListsAll(pairs + more, seeds + [seed], a, b)
  {
    assert (seeds + [seed])[..|seeds|] == seeds;
    SequencedSnoc(pairs, more, seeds, seed);
  }

  ghost predicate LostFinish(lost: seq<string>, seeds: seq<string>, before: Suite, after: Suite) {
    forall x :: x in lost <==> x in seeds && RowOf(before, x).success && !RowOf(after, x).success
  }

  lemma {:induction false} LostSnoc(lost: seq<string>, seeds: seq<string>, seed: string, before: Suite, after: Suite)
    requires LostFinish(lost, seeds, before, after)
    ensures LostFinish(lost + if RowOf(before, seed).success && !RowOf(after, seed).success then [seed] else [],
                       seeds + [seed], before, after)
  {
  }

  lemma {:induction false} DoneSnoc(seeds: seq<string>, seed: string, s: Suite)
    ensures Done(seeds + [seed], s) == Done(seeds, s) + if RowOf(s, seed).success then 1 else 0
  {
    assert (seeds + [seed])[..|seeds|] == seeds;
  }

  /** What the loop of `compare` has collected over these seeds. */
  ghost predicate Tallied(v: Verdict, seeds: seq<string>, before: Suite, after: Suite) {
    && ListsAll(v.gains, seeds, before, after)
    && ListsAll(v.regressions, seeds, after, before)
    && LostFinish(v.lost, seeds, before, after)
    && v.done == (Done(seeds, before), Done(seeds, after))
  }

  lemma {:induction false} NothingTallied(before: Suite, after: Suite)
    ensures Tallied(Verdict([], [], [], (0, 0), false), [], before, after)
  {
  }

  lemma {:induction false} Decision(v: Verdict, before: Suite, after: Suite)
    requires Tallied(v, SeedsOf(before), before, after)
    ensures |v.gains| > |v.regressions| && v.done.1 >= v.done.0 <==> Accepts(before, after)
  {
    Balance(SeedsOf(before), before, after);
  }

  /** One turn of the loop of `compare`. */
  method CompareSeed(seed: string, b: Row, a: Row, v: Verdict, ghost seeds: seq<string>, ghost before: Suite,
                     ghost after: Suite) returns (w: Verdict)
    requires Tallied(v, seeds, before, after) && b == RowOf(before, seed) && a == RowOf(after, seed)
    ensures Tallied(w, seeds + [seed], before, after)
  {
    var g, l := CompareKeys(seed, Milestones(b), Milestones(a));
    ListsSnoc(v.gains, g, seeds, seed, before, after);
    ListsSnoc(v.regressions, l, seeds, seed, after, before);
    LostSnoc(v.lost, seeds, seed, before, after);
    DoneSnoc(seeds, seed, before);
    DoneSnoc(seeds, seed, after);
    var done := (v.done.0 + if b.success then 1 else 0, v.done.1 + if a.success then 1 else 0);
    w := Verdict(v.gains + g, v.regressions + l, v.lost + if b.success && !a.success then [seed] else [], done, false);
  }

  /** Paired comparison over `before`'s seeds: the lists are exact, and acceptance
      is a strict rise of the passed milestones without losing a finished seed. */
  method Compare(before: Suite, after: Suite) returns (v: Verdict)
    requires UniqueSeeds(before)
    ensures Tallied(v, SeedsOf(before), before, after)
    ensures v.accepted <==> Accepts(before, after)
  {
    v := Verdict([], [], [], (0, 0), false);
    ghost var seeds := SeedsOf(before);
    NothingTallied(before, after);
    assert seeds[..0] == [];
    for i := 0 to |before|
      invariant Tallied(v, seeds[..i], before, after)
    {
      RowAt(before, i);
      assert seeds[..i] + [before[i].seed] == seeds[..i + 1];
      v := CompareSeed(before[i].seed, before[i].row, RowOf(after, before[i].seed), v, seeds[..i], before, after);
    }
    assert seeds[..|before|] == seeds;
    v := v.(accepted := |v.gains| > |v.regressions| && v.done.1 >= v.done.0);
    Decision(v, before, after);
  }

  // ------------------------------------------------------- whole campaigns

  /** One evaluation of a candidate; `confirmed` is the outcome of the fresh-seed
      check that may still refuse it. */
  datatype Evaluation = Evaluation(after: Suite, confirmed: bool)

  ghost predicate Adopted(incumbent: Suite, e: Evaluation) {
    Accepts(incumbent, e.after) && e.confirmed
  }

  ghost function Next(incumbent: Suite, e: Evaluation): (r: Suite) {
    if Adopted(incumbent, e) then e.after else incumbent
  }

  ghost function Final(incumbent: Suite, run: seq<Evaluation>): (r: Suite)
    decreases |run|
  {
    if run == [] then incumbent else Final(Next(incumbent, run[0]), run[1..])
  }

  ghost function Adoptions(incumbent: Suite, run: seq<Evaluation>): (r: nat)
    decreases |run|
  {
    if run == [] then 0
    else (if Adopted(incumbent, run[0]) then 1 else 0) + Adoptions(Next(incumbent, run[0]), run[1..])
  }

  ghost predicate OnSeeds(seeds: seq<string>, run: seq<Evaluation>) {
    forall i :: 0 <= i < |run| ==> SeedsOf(run[i].after) == seeds
  }

  /** Over any run of evaluations on one seed list every adoption raises the total
      and no adoption loses a finished seed. */
  lemma {:induction false} RunRises(seeds: seq<string>, incumbent: Suite, run: seq<Evaluation>)
    requires SeedsOf(incumbent) == seeds && OnSeeds(seeds, run)
    ensures Total(seeds, incumbent) + Adoptions(incumbent, run) <= Total(seeds, Final(incumbent, run))
    ensures Done(seeds, incumbent) <= Done(seeds, Final(incumbent, run))
    ensures SeedsOf(Final(incumbent, run)) == seeds
    decreases |run|
  {
    if run != [] {
      assert OnSeeds(seeds, run[1..]);
      RunRises(seeds, Next(incumbent, run[0]), run[1..]);
    }
  }

  ghost predicate AtMost(s: Suite, most: nat) {
    forall seed :: |Milestones(RowOf(s, seed)).Keys| <= most
  }

  lemma {:induction false} TotalBounded(seeds: seq<string>, s: Suite, most: nat)
    requires AtMost(s, most)
    ensures Total(seeds, s) <= |seeds| * most
  {
    if seeds != [] {
      var seed, init := seeds[|seeds| - 1], seeds[..|seeds| - 1];
      TotalBounded(init, s, most);
      Subset(PassedAt(s, seed), Milestones(RowOf(s, seed)).Keys);
      OneMore(|init|, most);
      assert |seeds| == |init| + 1;
    }
  }

  lemma {:induction false} OneMore(n: nat, most: nat)
    ensures (n + 1) * most == n * most + most
  {
  }

  lemma {:induction false} Subset(a: set<string>, b: set<string>)
    requires a <= b
    ensures |a| <= |b|
  {
    assert b == a + (b - a);
  }

  /** Hence the number of adoptions is at most seeds times milestones per seed. */
  lemma {:induction false} AdoptionsBounded(seeds: seq<string>, incumbent: Suite, run: seq<Evaluation>, most: nat)
    requires SeedsOf(incumbent) == seeds && OnSeeds(seeds, run)
    requires AtMost(incumbent, most) && forall i :: 0 <= i < |run| ==> AtMost(run[i].after, most)
    ensures Adoptions(incumbent, run) <= |seeds| * most
  {
    RunRises(seeds, incumbent, run);
    FinalAtMost(incumbent, run, most);
    TotalBounded(seeds, Final(incumbent, run), most);
  }

  lemma {:induction false} FinalAtMost(incumbent: Suite, run: seq<Evaluation>, most: nat)
    requires AtMost(incumbent, most) && forall i :: 0 <= i < |run| ==> AtMost(run[i].after, most)
    ensures AtMost(Final(incumbent, run), most)
    decreases |run|
  {
    if run != [] {
      assert forall i :: 0 <= i < |run| - 1 ==> run[1..][i] == run[i + 1];
      FinalAtMost(Next(incumbent, run[0]), run[1..], most);
    }
  }
}
