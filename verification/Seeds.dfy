/** The seed ledger and its allocator: maximal runs and burned blocks of
    board/store.py, merging and the lowest free block of scripts/alloc_seeds.py. */
module Seeds {
  import opened Options
  import Sorting

  /** Both ends included. */
  datatype Interval = Interval(lo: int, hi: int)

  predicate Inside(x: int, v: Interval) {
    v.lo <= x <= v.hi
  }

  predicate Covers(s: seq<Interval>, x: int) {
    exists i :: 0 <= i < |s| && Inside(x, s[i])
  }

  predicate Proper(s: seq<Interval>) {
    forall i :: 0 <= i < |s| ==> s[i].lo <= s[i].hi
  }

  /** Ascending, nonempty and at least one uncovered seed apart. */
  predicate Separated(s: seq<Interval>) {
    && Proper(s)
    && forall i, j :: 0 <= i < j < |s| ==> s[i].hi + 1 < s[j].lo
  }

  lemma {:induction false} CoversSnoc(s: seq<Interval>, v: Interval, x: int)
    ensures Covers(s + [v], x) <==> Covers(s, x) || Inside(x, v)
  {
    var all := s + [v];
    assert all[|s|] == v;
    if Covers(s, x) {
      var i :| 0 <= i < |s| && Inside(x, s[i]);
      assert all[i] == s[i];
    }
  }

  lemma {:induction false} CoversTail(s: seq<Interval>, x: int)
    requires s != []
    ensures Covers(s, x) <==> Inside(x, s[0]) || Covers(s[1..], x)
  {
    if Covers(s[1..], x) {
      var i :| 0 <= i < |s| - 1 && Inside(x, s[1..][i]);
      assert Inside(x, s[i + 1]);
    }
    if Covers(s, x) && !Inside(x, s[0]) {
      var i :| 0 <= i < |s| && Inside(x, s[i]);
      assert s[1..][i - 1] == s[i];
    }
  }

  lemma {:induction false} HeadCovers(s: seq<Interval>)
    requires Separated(s) && s != []
    ensures Covers(s, s[0].lo) && !Covers(s, s[0].hi + 1) && forall x :: Covers(s, x) ==> s[0].lo <= x
  {
    assert Inside(s[0].lo, s[0]);
  }

  lemma {:induction false} SameHead(a: seq<Interval>, b: seq<Interval>)
    requires Separated(a) && Separated(b) && a != [] && b != [] && forall x :: Covers(a, x) ==> Covers(b, x)
    ensures b[0].lo <= a[0].lo && (b[0].lo == a[0].lo ==> a[0].hi <= b[0].hi)
  {
    HeadCovers(a);
    HeadCovers(b);
    if b[0].lo == a[0].lo {
      assert b[0].hi < a[0].hi ==> Inside(b[0].hi + 1, a[0]);
    }
  }

  /** A separated list is determined by the seeds it covers. */
  lemma {:induction false} SeparatedUnique(a: seq<Interval>, b: seq<Interval>)
    requires Separated(a) && Separated(b) && forall x :: Covers(a, x) <==> Covers(b, x)
    ensures a == b
  {
    if a != [] {
      HeadCovers(a);
    }
    if b != [] {
      HeadCovers(b);
    }
    if a != [] && b != [] {
      SameHead(a, b);
      SameHead(b, a);
      forall x
        ensures Covers(a[1..], x) <==> Covers(b[1..], x)
      {
        TailCovers(a, x);
        TailCovers(b, x);
      }
      SeparatedUnique(a[1..], b[1..]);
    }
  }

  lemma {:induction false} TailCovers(s: seq<Interval>, x: int)
    requires Separated(s) && s != []
    ensures Covers(s[1..], x) <==> Covers(s, x) && !Inside(x, s[0])
  {
    CoversTail(s, x);
    if Covers(s[1..], x) {
      var i :| 0 <= i < |s| - 1 && Inside(x, s[1..][i]);
      assert s[1..][i] == s[i + 1] && s[0].hi + 1 < s[i + 1].lo;
    }
  }

  // ------------------------------------------------------------ maximal runs

  predicate IntLe(a: int, b: int) {
    a <= b
  }

  lemma {:induction false} IntOrder()
    ensures Sorting.TotalPreorder(IntLe) && Sorting.Antisymmetric(IntLe)
  {
  }

  /** Widening the last interval adds exactly the seeds of `[lo, hi]`. */
  lemma {:induction false} Widen(s: seq<Interval>, lo: int, hi: int, x: int)
    requires s != [] && s[|s| - 1].lo <= lo <= s[|s| - 1].hi + 1
    ensures var last := s[|s| - 1];
            Covers(s[|s| - 1 := Wider(last, Interval(lo, hi))], x) <==> Covers(s, x) || Inside(x, Interval(lo, hi))
  {
    var last, init := s[|s| - 1], s[..|s| - 1];
    var wider := Wider(last, Interval(lo, hi));
    assert s == init + [last] && s[|s| - 1 := wider] == init + [wider];
    CoversSnoc(init, last, x);
    CoversSnoc(init, wider, x);
  }

  /** The maximal runs of consecutive seeds, ascending: with `SeparatedUnique`,
      the only such list. */
  method RunsOf(seeds: seq<int>) returns (runs: seq<Interval>)
    ensures Separated(runs) && forall x :: Covers(runs, x) <==> x in seeds
  {
    IntOrder();
    Sorting.SortedSetCorrect(seeds, IntLe);
    var s := Sorting.SortedSet(seeds, IntLe);
    runs := [];
    for k := 0 to |s|
      invariant Separated(runs) && (runs == [] <==> k == 0) && (k > 0 ==> runs[|runs| - 1].hi == s[k - 1])
      invariant forall x :: Covers(runs, x) <==> x in s[..k]
    {
      ghost var was := runs;
      assert s[..k + 1] == s[..k] + [s[k]];
      if runs != [] && s[k] == runs[|runs| - 1].hi + 1 {
        var last := runs[|runs| - 1];
        runs := runs[|runs| - 1 := Interval(last.lo, s[k])];
        assert runs[|runs| - 1].lo <= runs[|runs| - 1].hi;
        forall x
          ensures Covers(runs, x) <==> Covers(was, x) || x == s[k]
        {
          Widen(was, s[k], s[k], x);
        }
      } else {
        runs := runs + [Interval(s[k], s[k])];
        forall x
          ensures Covers(runs, x) <==> Covers(was, x) || x == s[k]
        {
          CoversSnoc(was, Interval(s[k], s[k]), x);
        }
      }
    }
    assert s[..|s|] == s;
  }

  // ----------------------------------------------------------------- merging

  predicate IntervalLe(a: Interval, b: Interval) {
    a.lo < b.lo || (a.lo == b.lo && a.hi <= b.hi)
  }

  /** `sorted(intervals)`: by low end, then by high end. */
  function InOrder(s: seq<Interval>): (r: seq<Interval>) {
    Sorting.Sort(s, IntervalLe)
  }

  lemma {:induction false} InOrderCorrect(s: seq<Interval>)
    ensures LowsAscend(InOrder(s)) && forall v :: v in InOrder(s) <==> v in s
  {
    assert Sorting.TotalPreorder(IntervalLe);
    Sorting.SortCorrect(s, IntervalLe);
    forall v
      ensures v in InOrder(s) <==> v in s
    {
      Sorting.SortMembers(s, IntervalLe, v);
    }
    assert forall i, j :: 0 <= i < j < |InOrder(s)| ==> IntervalLe(InOrder(s)[i], InOrder(s)[j]);
  }

  lemma {:induction false} SameMembersCover(a: seq<Interval>, b: seq<Interval>)
    requires forall v :: v in a <==> v in b
    ensures forall x :: Covers(a, x) <==> Covers(b, x)
    ensures Proper(a) <==> Proper(b)
  {
    forall x
      ensures Covers(a, x) <==> Covers(b, x)
    {
      MembersCover(a, b, x);
      MembersCover(b, a, x);
    }
    assert forall i :: 0 <= i < |a| ==> a[i] in b;
    assert forall i :: 0 <= i < |b| ==> b[i] in a;
  }

  lemma {:induction false} MembersCover(a: seq<Interval>, b: seq<Interval>, x: int)
    requires forall v :: v in a ==> v in b
    ensures Covers(a, x) ==> Covers(b, x)
  {
    if Covers(a, x) {
      var i :| 0 <= i < |a| && Inside(x, a[i]);
      assert a[i] in b;
    }
  }

  predicate LowsAscend(s: seq<Interval>) {
    forall i, j :: 0 <= i < j < |s| ==> s[i].lo <= s[j].lo
  }

  predicate LowsUpTo(s: seq<Interval>, lo: int) {
    forall i :: 0 <= i < |s| ==> s[i].lo <= lo
  }

  function Wider(last: Interval, v: Interval): (r: Interval) {
    Interval(last.lo, if last.hi >= v.hi then last.hi else v.hi)
  }

  lemma {:induction false} FuseKeeps(merged: seq<Interval>, v: Interval)
    requires merged != [] && LowsAscend(merged) && v.lo <= merged[|merged| - 1].hi + 1
    ensures LowsAscend(merged[|merged| - 1 := Wider(merged[|merged| - 1], v)])
    ensures Separated(merged) ==> Separated(merged[|merged| - 1 := Wider(merged[|merged| - 1], v)])
  {
  }

  lemma {:induction false} AppendKeeps(merged: seq<Interval>, v: Interval)
    requires LowsAscend(merged) && LowsUpTo(merged, v.lo)
    ensures LowsAscend(merged + [v])
    ensures Separated(merged) && v.lo <= v.hi && (merged != [] ==> merged[|merged| - 1].hi + 1 < v.lo) ==>
              Separated(merged + [v])
  {
  }

  /** One turn of the merging loop. */
  function Fuse(merged: seq<Interval>, v: Interval): (r: seq<Interval>) {
    if merged != [] && v.lo <= merged[|merged| - 1].hi + 1
    then merged[|merged| - 1 := Wider(merged[|merged| - 1], v)]
    else merged + [v]
  }

  function Coalesced(s: seq<Interval>): (r: seq<Interval>) {
    if s == [] then [] else Fuse(Coalesced(s[..|s| - 1]), s[|s| - 1])
  }

  lemma {:induction false} FuseCovers(merged: seq<Interval>, v: Interval, x: int)
    requires LowsAscend(merged) && LowsUpTo(merged, v.lo)
    ensures Covers(Fuse(merged, v), x) <==> Covers(merged, x) || Inside(x, v)
  {
    if merged != [] && v.lo <= merged[|merged| - 1].hi + 1 {
      Widen(merged, v.lo, v.hi, x);
    } else {
      CoversSnoc(merged, v, x);
    }
  }

  lemma {:induction false} CoalescedCovers(s: seq<Interval>, x: int)
    requires LowsAscend(s)
    ensures Covers(Coalesced(s), x) <==> Covers(s, x)
  {
    if s != [] {
      var init, v := s[..|s| - 1], s[|s| - 1];
      CoalescedCovers(init, x);
      CoalescedShape(init);
      LowsBelow(s);
      FuseCovers(Coalesced(init), v, x);
      CoversSnoc(init, v, x);
      assert s == init + [v];
    }
  }

  lemma {:induction false} LowsBelow(s: seq<Interval>)
    requires LowsAscend(s) && s != []
    ensures LowsAscend(s[..|s| - 1])
    ensures LowsUpTo(Coalesced(s[..|s| - 1]), s[|s| - 1].lo)
  {
    CoalescedShape(s[..|s| - 1]);
  }

  lemma {:induction false} CoalescedShape(s: seq<Interval>)
    requires LowsAscend(s)
    ensures LowsAscend(Coalesced(s)) && (Proper(s) ==> Separated(Coalesced(s)))
    ensures s != [] ==> LowsUpTo(Coalesced(s), s[|s| - 1].lo)
  {
    if s != [] {
      var init, v := s[..|s| - 1], s[|s| - 1];
      CoalescedShape(init);
      var merged := Coalesced(init);
      assert init != [] ==> init[|init| - 1].lo <= v.lo;
      if merged != [] && v.lo <= merged[|merged| - 1].hi + 1 {
        FuseKeeps(merged, v);
      } else {
        AppendKeeps(merged, v);
      }
    }
  }

  /** Sorting and coalescing keeps the covered seeds and leaves no touching neighbours. */
  method Merge(intervals: seq<Interval>) returns (merged: seq<Interval>)
    ensures LowsAscend(merged) && forall x :: Covers(merged, x) <==> Covers(intervals, x)
    ensures Proper(intervals) ==> Separated(merged)
    ensures merged == Coalesced(InOrder(intervals))
  {
    var s := InOrder(intervals);
    merged := [];
    for k := 0 to |s|
      invariant merged == Coalesced(s[..k])
    {
      assert s[..k + 1][..k] == s[..k];
      if merged != [] && s[k].lo <= merged[|merged| - 1].hi + 1 {
        merged := merged[|merged| - 1 := Wider(merged[|merged| - 1], s[k])];
      } else {
        merged := merged + [s[k]];
      }
    }
    assert s[..|s|] == s;
    InOrderCorrect(intervals);
    SameMembersCover(s, intervals);
    CoalescedShape(s);
    forall x
      ensures Covers(merged, x) <==> Covers(s, x)
    {
      CoalescedCovers(s, x);
    }
  }

  // ------------------------------------------------------- the lowest free block

  /** No seed of `[lo, lo + n)` is covered. */
  predicate Free(taken: seq<Interval>, lo: int, n: int) {
    forall x :: lo <= x < lo + n ==> !Covers(taken, x)
  }

  /** `Suggested` is half-open: `[lo, hi)`. */
  datatype Block = Suggested(lo: int, hi: int) | ValueError

  /** The overlap test of `next_block`, which reversed ends can pass too. */
  predicate Meets(v: Interval, c: int, n: int) {
    c <= v.hi && v.lo < c + n
  }

  predicate Clear(s: seq<Interval>, c: int, n: int) {
    forall i :: 0 <= i < |s| ==> !Meets(s[i], c, n)
  }

  lemma {:induction false} ClearSnoc(s: seq<Interval>, v: Interval, c: int, n: int)
    ensures Clear(s + [v], c, n) <==> Clear(s, c, n) && !Meets(v, c, n)
  {
    var all := s + [v];
    assert all[|s|] == v && forall i :: 0 <= i < |s| ==> all[i] == s[i];
  }

  lemma {:induction false} FuseClear(merged: seq<Interval>, v: Interval, c: int, n: int)
    requires n > 0 && LowsUpTo(merged, v.lo)
    ensures Clear(Fuse(merged, v), c, n) <==> Clear(merged, c, n) && !Meets(v, c, n)
  {
    if merged != [] && v.lo <= merged[|merged| - 1].hi + 1 {
      var init, last := merged[..|merged| - 1], merged[|merged| - 1];
      assert merged == init + [last] && Fuse(merged, v) == init + [Wider(last, v)];
      ClearSnoc(init, last, c, n);
      ClearSnoc(init, Wider(last, v), c, n);
    } else {
      ClearSnoc(merged, v, c, n);
    }
  }

  lemma {:induction false} CoalescedClear(s: seq<Interval>, c: int, n: int)
    requires n > 0 && LowsAscend(s)
    ensures Clear(Coalesced(s), c, n) <==> Clear(s, c, n)
  {
    if s != [] {
      var init, v := s[..|s| - 1], s[|s| - 1];
      LowsBelow(s);
      CoalescedClear(init, c, n);
      FuseClear(Coalesced(init), v, c, n);
      ClearSnoc(init, v, c, n);
      assert s == init + [v];
    }
  }

  lemma {:induction false} MergedClear(taken: seq<Interval>, c: int, n: int)
    requires n > 0
    ensures Clear(Coalesced(InOrder(taken)), c, n) <==> Clear(taken, c, n)
  {
    var s := InOrder(taken);
    InOrderCorrect(taken);
    CoalescedClear(s, c, n);
    assert forall i :: 0 <= i < |s| ==> s[i] in taken;
    assert forall i :: 0 <= i < |taken| ==> taken[i] in s;
  }

  /** Wherever an interval with reversed ends is in the way, a seed is covered as well. */
  predicate Harmless(taken: seq<Interval>, n: int) {
    forall i, c :: 0 <= i < |taken| && taken[i].lo > taken[i].hi && taken[i].lo - n < c <= taken[i].hi ==>
      !Free(taken, c, n)
  }

  lemma {:induction false} MeetsSeed(taken: seq<Interval>, i: nat, c: int, n: int)
    requires i < |taken| && n > 0 && Meets(taken[i], c, n) && taken[i].lo <= taken[i].hi
    ensures !Free(taken, c, n)
  {
    var x := if c >= taken[i].lo then c else taken[i].lo;
    assert Inside(x, taken[i]);
    assert Covers(taken, x);
  }

  lemma {:induction false} ClearIsFree(taken: seq<Interval>, c: int, n: int)
    requires Clear(taken, c, n)
    ensures Free(taken, c, n)
  {
    forall x, i | c <= x < c + n && 0 <= i < |taken|
      ensures !Inside(x, taken[i])
    {
      assert !Meets(taken[i], c, n);
    }
  }

  /** The blocks that pass the test are the free ones exactly when every interval
      with reversed ends is harmless. */
  lemma {:induction false} ClearExactly(taken: seq<Interval>, n: int)
    requires n > 0
    ensures (forall c :: Clear(taken, c, n) <==> Free(taken, c, n)) <==> Harmless(taken, n)
  {
    if Harmless(taken, n) {
      forall c
        ensures Clear(taken, c, n) <==> Free(taken, c, n)
      {
        if Clear(taken, c, n) {
          ClearIsFree(taken, c, n);
        } else {
          var i :| 0 <= i < |taken| && Meets(taken[i], c, n);
          if taken[i].lo <= taken[i].hi {
            MeetsSeed(taken, i, c, n);
          }
        }
      }
    }
    if forall c :: Clear(taken, c, n) <==> Free(taken, c, n) {
      forall i, c | 0 <= i < |taken| && taken[i].lo > taken[i].hi && taken[i].lo - n < c <= taken[i].hi
        ensures !Free(taken, c, n)
      {
        assert Meets(taken[i], c, n);
        assert !Clear(taken, c, n);
      }
    }
  }

  /** The lowest block at or above the floor that passes the test against every
      interval. It is free, and the lowest free one when reversed ends are harmless. */
  method NextBlock(n: int, taken: seq<Interval>, floor: int) returns (r: Block)
    ensures r.ValueError? <==> n <= 0
    ensures r.Suggested? ==> floor <= r.lo && r.hi == r.lo + n && Free(taken, r.lo, n)
    ensures r.Suggested? ==> Clear(taken, r.lo, n) && forall c :: floor <= c < r.lo ==> !Clear(taken, c, n)
    ensures r.Suggested? && Harmless(taken, n) ==> forall c :: floor <= c < r.lo ==> !Free(taken, c, n)
  {
    if n <= 0 {
      return ValueError;
    }
    var lo := floor;
    var merged := Merge(taken);
    var k := 0;
    while k < |merged|
      invariant 0 <= k <= |merged| && floor <= lo
      invariant forall i :: 0 <= i < k ==> merged[i].hi < lo
      invariant forall c :: floor <= c < lo ==> !Clear(merged, c, n)
    {
      if lo + n <= merged[k].lo {
        break;
      }
      if lo <= merged[k].hi {
        assert forall c :: lo <= c <= merged[k].hi ==> Meets(merged[k], c, n);
        lo := merged[k].hi + 1;
      }
      k := k + 1;
    }
    assert Clear(merged, lo, n);
    forall c
      ensures Clear(merged, c, n) <==> Clear(taken, c, n)
    {
      MergedClear(taken, c, n);
    }
    ClearExactly(taken, n);
    ClearIsFree(taken, lo, n);
    return Suggested(lo, lo + n);
  }

  lemma {:induction false} ProperIsHarmless(taken: seq<Interval>, n: int)
    requires Proper(taken)
    ensures Harmless(taken, n)
  {
  }

  /** An interval whose ends are reversed covers nothing and still pushes a block
      longer than its reach from 0 to 4. */
  lemma {:induction false} ReversedEndsPush()
    ensures Free([Interval(5, 3)], 0, 10) && !Harmless([Interval(5, 3)], 10)
    ensures Clear([Interval(5, 3)], 4, 10) && forall c :: 0 <= c < 4 ==> !Clear([Interval(5, 3)], c, 10)
  {
    var s := [Interval(5, 3)];
    assert forall c :: 0 <= c < 4 ==> Meets(s[0], c, 10);
    assert s[0].lo - 10 < 0 <= s[0].hi;
  }

  // --------------------------------------------------------- the seed ledger

  /** `Prose` rows come from the status file and carry no preregistration. */
  datatype Role = Gate | Heldout | Prose

  datatype Burn = Burn(span: Interval, role: Role, sha: string)

  datatype Payload = Payload(dev: seq<int>, selection: seq<int>, heldout: seq<int>)

  /** An index row; `payload` is None when the artifact cannot be read. */
  datatype IndexRow = IndexRow(preregistration: bool, sha: string, payload: Option<Payload>)

  /** A range of the status file, `lo < hi`, with its state. */
  datatype ProseRow = ProseRow(lo: int, hi: int, burned: bool)

  datatype Derived = Derived(blocks: seq<Burn>) | NoStore

  /** Some block of this role and preregistration holds the seed. */
  predicate Burned(blocks: seq<Burn>, x: int, role: Role, sha: string) {
    exists i :: 0 <= i < |blocks| && Holds(blocks[i], x, role, sha)
  }

  predicate Holds(b: Burn, x: int, role: Role, sha: string) {
    b.role == role && b.sha == sha && Inside(x, b.span)
  }

  predicate RowBurns(row: IndexRow, x: int, role: Role, sha: string) {
    && row.preregistration && row.payload.Some? && row.sha == sha
    && match role
       case Gate => x in row.payload.value.dev || x in row.payload.value.selection
       case Heldout => x in row.payload.value.heldout
       case Prose => false
  }

  predicate StoreBurns(rows: seq<IndexRow>, x: int, role: Role, sha: string) {
    exists i :: 0 <= i < |rows| && RowBurns(rows[i], x, role, sha)
  }

  predicate ProseBurns(row: ProseRow, x: int, role: Role, sha: string) {
    row.burned && role == Prose && sha == "" && row.lo <= x <= row.hi
  }

  /** The evidence burns this seed in this role for this preregistration. */
  predicate EvidenceBurns(stores: seq<seq<IndexRow>>, prose: seq<ProseRow>, x: int, role: Role, sha: string) {
    || (exists i :: 0 <= i < |stores| && StoreBurns(stores[i], x, role, sha))
    || (exists i :: 0 <= i < |prose| && ProseBurns(prose[i], x, role, sha))
  }

  predicate ProperBlocks(blocks: seq<Burn>) {
    forall i :: 0 <= i < |blocks| ==> blocks[i].span.lo <= blocks[i].span.hi
  }

  lemma {:induction false} BurnedConcat(a: seq<Burn>, b: seq<Burn>, x: int, role: Role, sha: string)
    ensures Burned(a + b, x, role, sha) <==> Burned(a, x, role, sha) || Burned(b, x, role, sha)
  {
    if Burned(a, x, role, sha) {
      var i :| 0 <= i < |a| && Holds(a[i], x, role, sha);
      assert (a + b)[i] == a[i];
    }
    if Burned(b, x, role, sha) {
      var i :| 0 <= i < |b| && Holds(b[i], x, role, sha);
      assert (a + b)[|a| + i] == b[i];
    }
  }

  /** The runs of one seed list, labelled. */
  method Labelled(seeds: seq<int>, role: Role, sha: string) returns (blocks: seq<Burn>)
    ensures ProperBlocks(blocks)
    ensures forall x, r, s :: Burned(blocks, x, r, s) <==> r == role && s == sha && x in seeds
  {
    var runs := RunsOf(seeds);
    blocks := seq(|runs|, i requires 0 <= i < |runs| => Burn(runs[i], role, sha));
    forall x, r, s
      ensures Burned(blocks, x, r, s) <==> r == role && s == sha && x in seeds
    {
      if r == role && s == sha && Covers(runs, x) {
        var i :| 0 <= i < |runs| && Inside(x, runs[i]);
        assert Holds(blocks[i], x, r, s);
      }
    }
  }

  method RowBlocks(row: IndexRow) returns (blocks: seq<Burn>)
    ensures ProperBlocks(blocks)
    ensures forall x, role, sha :: Burned(blocks, x, role, sha) <==> RowBurns(row, x, role, sha)
  {
    blocks := [];
    if !row.preregistration || row.payload.None? {
      return;
    }
    var dev := Labelled(row.payload.value.dev, Gate, row.sha);
    var selection := Labelled(row.payload.value.selection, Gate, row.sha);
    var heldout := Labelled(row.payload.value.heldout, Heldout, row.sha);
    blocks := dev + selection + heldout;
    forall x, role, sha
      ensures Burned(blocks, x, role, sha) <==> RowBurns(row, x, role, sha)
    {
      BurnedConcat(dev + selection, heldout, x, role, sha);
      BurnedConcat(dev, selection, x, role, sha);
    }
  }

  lemma {:induction false} StoreSnoc(rows: seq<IndexRow>, k: nat, x: int, role: Role, sha: string)
    requires k < |rows|
    ensures StoreBurns(rows[..k + 1], x, role, sha) <==>
      StoreBurns(rows[..k], x, role, sha) || RowBurns(rows[k], x, role, sha)
  {
    assert rows[..k + 1][k] == rows[k];
    assert forall i :: 0 <= i < k ==> rows[..k + 1][i] == rows[..k][i];
  }

  method StoreBlocks(rows: seq<IndexRow>) returns (blocks: seq<Burn>)
    ensures ProperBlocks(blocks)
    ensures forall x, role, sha :: Burned(blocks, x, role, sha) <==> StoreBurns(rows, x, role, sha)
  {
    blocks := [];
    for k := 0 to |rows|
      invariant ProperBlocks(blocks)
      invariant forall x, role, sha :: Burned(blocks, x, role, sha) <==> StoreBurns(rows[..k], x, role, sha)
    {
      var more := RowBlocks(rows[k]);
      forall x, role, sha
        ensures Burned(blocks + more, x, role, sha) <==> StoreBurns(rows[..k + 1], x, role, sha)
      {
        BurnedConcat(blocks, more, x, role, sha);
        StoreSnoc(rows, k, x, role, sha);
      }
      blocks := blocks + more;
    }
    assert rows[..|rows|] == rows;
  }

  predicate ProseBurnsUpTo(prose: seq<ProseRow>, k: nat, x: int, role: Role, sha: string)
    requires k <= |prose|
  {
    exists i :: 0 <= i < k && ProseBurns(prose[i], x, role, sha)
  }

  method ProseBlocks(prose: seq<ProseRow>) returns (blocks: seq<Burn>)
    requires forall i :: 0 <= i < |prose| ==> prose[i].lo < prose[i].hi
    ensures ProperBlocks(blocks)
    ensures forall x, role, sha :: Burned(blocks, x, role, sha) <==> ProseBurnsUpTo(prose, |prose|, x, role, sha)
  {
    blocks := [];
    for k := 0 to |prose|
      invariant ProperBlocks(blocks)
      invariant forall x, role, sha :: Burned(blocks, x, role, sha) <==> ProseBurnsUpTo(prose, k, x, role, sha)
    {
      var more := if prose[k].burned then [Burn(Interval(prose[k].lo, prose[k].hi), Prose, "")] else [];
      forall x, role, sha
        ensures Burned(blocks + more, x, role, sha) <==> ProseBurnsUpTo(prose, k + 1, x, role, sha)
      {
        BurnedConcat(blocks, more, x, role, sha);
        assert Burned(more, x, role, sha) <==> ProseBurns(prose[k], x, role, sha) by {
          assert more != [] ==> (Holds(more[0], x, role, sha) <==> ProseBurns(prose[k], x, role, sha));
        }
      }
      blocks := blocks + more;
    }
  }

  predicate StoresBurnUpTo(stores: seq<seq<IndexRow>>, k: nat, x: int, role: Role, sha: string)
    requires k <= |stores|
  {
    exists i :: 0 <= i < k && StoreBurns(stores[i], x, role, sha)
  }

  function RoleRank(role: Role): (r: int) {
    match role
    case Gate => 0
    case Heldout => 1
    case Prose => 2
  }

  /** Tuples by low end, high end, role name and preregistration. */
  predicate BurnLe(a: Burn, b: Burn) {
    if a.span != b.span then IntervalLe(a.span, b.span)
    else if a.role != b.role then RoleRank(a.role) < RoleRank(b.role)
    else Sorting.TextLe(a.sha, b.sha)
  }

  /** How the roles are written. */
  function RoleName(role: Role): (r: string) {
    match role
    case Gate => "gate"
    case Heldout => "heldout"
    case Prose => "prose"
  }

  /** That is the order of the tuples low end, high end, role name, preregistration. */
  lemma {:induction false} BurnLeIs(a: Burn, b: Burn)
    ensures BurnLe(a, b) <==>
      || a.span.lo < b.span.lo
      || (a.span.lo == b.span.lo && a.span.hi < b.span.hi)
      || (a.span == b.span && RoleName(a.role) != RoleName(b.role)
          && Sorting.TextLe(RoleName(a.role), RoleName(b.role)))
      || (a.span == b.span && RoleName(a.role) == RoleName(b.role) && Sorting.TextLe(a.sha, b.sha))
  {
    assert "gate"[0] < "heldout"[0] < "prose"[0];
    assert a.role == b.role <==> RoleName(a.role) == RoleName(b.role);
    assert a.role != b.role ==>
      (RoleRank(a.role) < RoleRank(b.role) <==> Sorting.TextLe(RoleName(a.role), RoleName(b.role)));
  }

  lemma {:induction false} BurnOrder()
    ensures Sorting.TotalPreorder(BurnLe) && Sorting.Antisymmetric(BurnLe)
  {
    Sorting.TextOrder();
    forall a, b, c | BurnLe(a, b) && BurnLe(b, c)
      ensures BurnLe(a, c)
    {
      if a.span == b.span == c.span && a.role == b.role == c.role {
        Sorting.TextLeTransitive(a.sha, b.sha, c.sha);
      }
    }
    forall a, b
      ensures (BurnLe(a, b) || BurnLe(b, a)) && (BurnLe(a, b) && BurnLe(b, a) ==> a == b)
    {
      Sorting.TextLeTotal(a.sha, b.sha);
    }
  }

  lemma {:induction false} SameBlocks(a: seq<Burn>, b: seq<Burn>)
    requires forall e :: e in a <==> e in b
    ensures forall x, role, sha :: Burned(a, x, role, sha) <==> Burned(b, x, role, sha)
    ensures ProperBlocks(a) <==> ProperBlocks(b)
  {
    forall x, role, sha
      ensures Burned(a, x, role, sha) <==> Burned(b, x, role, sha)
    {
      MembersBurn(a, b, x, role, sha);
      MembersBurn(b, a, x, role, sha);
    }
    assert forall i :: 0 <= i < |a| ==> a[i] in b;
    assert forall i :: 0 <= i < |b| ==> b[i] in a;
  }

  lemma {:induction false} MembersBurn(a: seq<Burn>, b: seq<Burn>, x: int, role: Role, sha: string)
    requires forall e :: e in a ==> e in b
    ensures Burned(a, x, role, sha) ==> Burned(b, x, role, sha)
  {
    if Burned(a, x, role, sha) {
      var i :| 0 <= i < |a| && Holds(a[i], x, role, sha);
      assert a[i] in b;
    }
  }

  /** The derived ledger, sorted and without repetition: a seed is in it for a
      role and a preregistration exactly when the evidence burns it there. */
  method BurnedBlocks(stores: seq<seq<IndexRow>>, prose: seq<ProseRow>) returns (r: Derived)
    requires forall i :: 0 <= i < |prose| ==> prose[i].lo < prose[i].hi
    ensures r.NoStore? <==> stores == []
    ensures r.Derived? ==> ProperBlocks(r.blocks) && Sorting.Ascending(r.blocks, BurnLe)
    ensures r.Derived? ==>
      forall x, role, sha :: Burned(r.blocks, x, role, sha) <==> EvidenceBurns(stores, prose, x, role, sha)
  {
    if stores == [] {
      return NoStore;
    }
    var blocks := [];
    for k := 0 to |stores|
      invariant ProperBlocks(blocks)
      invariant forall x, role, sha :: Burned(blocks, x, role, sha) <==> StoresBurnUpTo(stores, k, x, role, sha)
    {
      var more := StoreBlocks(stores[k]);
      forall x, role, sha
        ensures Burned(blocks + more, x, role, sha) <==> StoresBurnUpTo(stores, k + 1, x, role, sha)
      {
        BurnedConcat(blocks, more, x, role, sha);
      }
      blocks := blocks + more;
    }
    var told := ProseBlocks(prose);
    forall x, role, sha
      ensures Burned(blocks + told, x, role, sha) <==> EvidenceBurns(stores, prose, x, role, sha)
    {
      BurnedConcat(blocks, told, x, role, sha);
    }
    BurnOrder();
    Sorting.SortedSetCorrect(blocks + told, BurnLe);
    SameBlocks(Sorting.SortedSet(blocks + told, BurnLe), blocks + told);
    return Derived(Sorting.SortedSet(blocks + told, BurnLe));
  }

  // -------------------------------------------------------------- end to end

  ghost predicate Spent(stores: seq<seq<IndexRow>>, prose: seq<ProseRow>, x: int) {
    exists role, sha :: EvidenceBurns(stores, prose, x, role, sha)
  }

  ghost predicate Unspent(stores: seq<seq<IndexRow>>, prose: seq<ProseRow>, lo: int, n: int) {
    forall x :: lo <= x < lo + n ==> !Spent(stores, prose, x)
  }

  lemma {:induction false} SpansCover(blocks: seq<Burn>, spans: seq<Interval>, x: int)
    requires |spans| == |blocks| && forall i :: 0 <= i < |blocks| ==> spans[i] == blocks[i].span
    ensures Covers(spans, x) <==> exists role, sha :: Burned(blocks, x, role, sha)
  {
    if Covers(spans, x) {
      var i :| 0 <= i < |spans| && Inside(x, spans[i]);
      assert Holds(blocks[i], x, blocks[i].role, blocks[i].sha);
      assert Burned(blocks, x, blocks[i].role, blocks[i].sha);
    }
    if role, sha :| Burned(blocks, x, role, sha) {
      var i :| 0 <= i < |blocks| && Holds(blocks[i], x, role, sha);
      assert Inside(x, spans[i]);
    }
  }

  /** The allocator over the derived ledger: no seed of the suggested block was
      ever spent, and its start is the least one at or above the floor. */
  method Allocate(n: int, stores: seq<seq<IndexRow>>, prose: seq<ProseRow>, floor: int) returns (r: Block)
    requires forall i :: 0 <= i < |prose| ==> prose[i].lo < prose[i].hi
    ensures r.ValueError? <==> stores == [] || n <= 0
    ensures r.Suggested? ==> floor <= r.lo && r.hi == r.lo + n && Unspent(stores, prose, r.lo, n)
    ensures r.Suggested? ==> forall c :: floor <= c < r.lo ==> !Unspent(stores, prose, c, n)
  {
    var ledger := BurnedBlocks(stores, prose);
    if ledger.NoStore? {
      return ValueError;
    }
    var blocks := ledger.blocks;
    var taken := seq(|blocks|, i requires 0 <= i < |blocks| => blocks[i].span);
    forall x
      ensures Covers(taken, x) <==> Spent(stores, prose, x)
    {
      SpansCover(blocks, taken, x);
    }
    r := NextBlock(n, taken, floor);
    ProperIsHarmless(taken, n);
    assert forall c :: Free(taken, c, n) <==> Unspent(stores, prose, c, n);
  }
}
