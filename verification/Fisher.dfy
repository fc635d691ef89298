/** The exact two-sided test of scripts/compare_serving_arms.py, in exact
    arithmetic: the support weights sum by Vandermonde's identity. */
module Fisher {
  import opened Options

  /** `math.comb`. */
  function Choose(n: nat, k: int): (r: nat)
    decreases n
  {
    if k < 0 then 0
    else if k == 0 then 1
    else if n == 0 then 0
    else Choose(n - 1, k - 1) + Choose(n - 1, k)
  }

  lemma {:induction false} ChooseSupport(n: nat, k: int)
    ensures Choose(n, k) > 0 <==> 0 <= k <= n
    decreases n
  {
    if 0 < k && 0 < n {
      ChooseSupport(n - 1, k - 1);
      ChooseSupport(n - 1, k);
    }
  }

  lemma {:induction false} ChooseSymmetric(n: nat, k: int)
    ensures Choose(n, k) == Choose(n, n - k)
    decreases n
  {
    if k < 0 || k > n {
      ChooseSupport(n, k);
      ChooseSupport(n, n - k);
    } else if k == 0 || k == n {
      ChooseAll(n);
    } else {
      ChooseSymmetric(n - 1, k - 1);
      ChooseSymmetric(n - 1, k);
    }
  }

  lemma {:induction false} ChooseAll(n: nat)
    ensures Choose(n, n) == 1
    decreases n
  {
    if n > 0 {
      ChooseAll(n - 1);
      ChooseSupport(n - 1, n);
    }
  }

  /** Tables with `k` successes in the first of two arms of sizes `m` and `n`,
      `c` successes in all. */
  function Weight(m: nat, n: nat, c: int, k: int): (r: nat) {
    Choose(m, k) * Choose(n, c - k)
  }

  const BILLION := 1_000_000_000

  /** The weight, unless it exceeds a limit (in billionths). */
  function Kept(w: nat, limit: Option<int>): (r: nat) {
    if limit.Some? && w * BILLION > limit.value then 0 else w
  }

  /** The kept weights of `lo..hi`, both included. */
  function Sum(m: nat, n: nat, c: int, limit: Option<int>, lo: int, hi: int): (r: nat)
    decreases hi - lo + 1
  {
    if hi < lo then 0
    else Sum(m, n, c, limit, lo, hi - 1) + Kept(Weight(m, n, c, hi), limit)
  }

  // --------------------------------------------------- Vandermonde's identity

  lemma {:induction false} WeightStep(m: nat, n: nat, c: int, k: int)
    requires k >= 0
    ensures Weight(m + 1, n, c, k) == Weight(m, n, c, k) + Weight(m, n, c - 1, k - 1)
  {
    var rest := Choose(n, c - k);
    assert c - 1 - (k - 1) == c - k;
    assert Choose(m + 1, k) == Choose(m, k) + Choose(m, k - 1);
    Distribute(Choose(m, k), Choose(m, k - 1), rest);
  }

  lemma {:induction false} Distribute(a: nat, b: nat, c: nat)
    ensures (a + b) * c == a * c + b * c
  {
  }

  lemma {:induction false} SumStep(m: nat, n: nat, c: int, hi: int)
    requires hi >= -1
    ensures Sum(m + 1, n, c, None, 0, hi) == Sum(m, n, c, None, 0, hi) + Sum(m, n, c - 1, None, 0, hi - 1)
    decreases hi + 1
  {
    if hi >= 0 {
      SumStep(m, n, c, hi - 1);
      WeightStep(m, n, c, hi);
      if hi == 0 {
        NegativeIsZero(m, n, c - 1);
      }
    }
  }

  lemma {:induction false} NegativeIsZero(m: nat, n: nat, c: int)
    ensures Weight(m, n, c, -1) == 0
  {
    Zero(Choose(n, c + 1));
  }

  lemma {:induction false} Zero(a: nat)
    ensures 0 * a == 0 && a * 0 == 0 && 1 * a == a
  {
  }

  /** With an empty first arm only `k == 0` counts. */
  lemma {:induction false} EmptyArm(n: nat, c: int, hi: int)
    requires hi >= 0
    ensures Sum(0, n, c, None, 0, hi) == Choose(n, c)
    decreases hi
  {
    Zero(Choose(n, c - hi));
    if hi == 0 {
      assert Sum(0, n, c, None, 0, -1) == 0;
    } else {
      EmptyArm(n, c, hi - 1);
    }
  }

  lemma {:induction false} Vandermonde(m: nat, n: nat, c: int)
    requires c >= -1
    ensures Sum(m, n, c, None, 0, c) == Choose(m + n, c)
    decreases m
  {
    if c >= 0 {
      if m == 0 {
        EmptyArm(n, c, c);
      } else {
        SumStep(m - 1, n, c, c);
        Vandermonde(m - 1, n, c);
        Vandermonde(m - 1, n, c - 1);
        if c == 0 {
          assert Sum(m - 1, n, -1, None, 0, -1) == 0;
        }
      }
    }
  }

  // ------------------------------------------------------------- the support

  function Low(n: nat, c: int): (r: int) {
    if c - n > 0 then c - n else 0
  }

  function High(m: nat, c: int): (r: int) {
    if m < c then m else c
  }

  lemma {:induction false} WeightSupport(m: nat, n: nat, c: int, k: int)
    ensures Weight(m, n, c, k) > 0 <==> Low(n, c) <= k <= High(m, c)
  {
    ChooseSupport(m, k);
    ChooseSupport(n, c - k);
    if Choose(m, k) > 0 && Choose(n, c - k) > 0 {
      Positive(Choose(m, k), Choose(n, c - k));
    } else {
      Zero(Choose(m, k));
      Zero(Choose(n, c - k));
    }
  }

  lemma {:induction false} Positive(a: nat, b: nat)
    requires a > 0 && b > 0
    ensures a * b > 0
  {
  }

  lemma {:induction false} SumSplit(m: nat, n: nat, c: int, limit: Option<int>, lo: int, mid: int, hi: int)
    requires lo <= mid + 1 && mid <= hi
    ensures Sum(m, n, c, limit, lo, hi) == Sum(m, n, c, limit, lo, mid) + Sum(m, n, c, limit, mid + 1, hi)
    decreases hi - mid
  {
    if mid < hi {
      SumSplit(m, n, c, limit, lo, mid, hi - 1);
    }
  }

  lemma {:induction false} SumOutside(m: nat, n: nat, c: int, lo: int, hi: int)
    requires hi < Low(n, c) || lo > High(m, c)
    ensures Sum(m, n, c, None, lo, hi) == 0
    decreases hi - lo + 1
  {
    if lo <= hi {
      SumOutside(m, n, c, lo, hi - 1);
      WeightSupport(m, n, c, hi);
    }
  }

  /** Over the support the weights sum to the number of ways to place the successes. */
  lemma {:induction false} SupportSum(m: nat, n: nat, c: nat)
    requires c <= m + n
    ensures Sum(m, n, c, None, Low(n, c), High(m, c)) == Choose(m + n, c)
  {
    var lo, hi := Low(n, c), High(m, c);
    Vandermonde(m, n, c);
    SumSplit(m, n, c, None, 0, hi, c);
    SumSplit(m, n, c, None, 0, lo - 1, hi);
    SumOutside(m, n, c, hi + 1, c);
    SumOutside(m, n, c, 0, lo - 1);
  }

  // -------------------------------------------------------------- the test

  /** `p(k)` of the source. */
  function Probability(m: nat, n: nat, c: nat, k: int): (r: real)
    requires c <= m + n
  {
    ChooseSupport(m + n, c);
    Weight(m, n, c, k) as real / Choose(m + n, c) as real
  }

  const TOLERANCE := 0.000000001

  /** The sum over `lo..hi` of the probabilities no larger than the bound. */
  function Tail(m: nat, n: nat, c: nat, bound: real, lo: int, hi: int): (r: real)
    requires c <= m + n
    decreases hi - lo + 1
  {
    if hi < lo then 0.0
    else
      var p := Probability(m, n, c, hi);
      Tail(m, n, c, bound, lo, hi - 1) + if p <= bound then p else 0.0
  }

  function Uncapped(a: nat, b: nat, c: nat, d: nat): (r: real) {
    var m, n, c1 := a + b, c + d, a + c;
    Tail(m, n, c1, Probability(m, n, c1, a) * (1.0 + TOLERANCE), Low(n, c1), High(m, c1))
  }

  /** `fisher_p`, on exact numbers. */
  function FisherP(a: nat, b: nat, c: nat, d: nat): (r: real) {
    if Uncapped(a, b, c, d) < 1.0 then Uncapped(a, b, c, d) else 1.0
  }

  function Limit(observed: nat): (r: int) {
    observed * (BILLION + 1)
  }

  lemma {:induction false} SameCut(w: nat, o: nat, t: nat)
    requires t > 0
    ensures w as real / t as real <= (o as real / t as real) * (1.0 + TOLERANCE) <==> w * BILLION <= Limit(o)
  {
    var x, y, z := w as real, o as real, t as real;
    assert x / z <= (y / z) * (1.0 + TOLERANCE) <==> x <= y * (1.0 + TOLERANCE) by {
      ScaleBack(x, y * (1.0 + TOLERANCE), z);
      assert (y / z) * (1.0 + TOLERANCE) == (y * (1.0 + TOLERANCE)) / z;
    }
    assert BILLION as real * TOLERANCE == 1.0;
    assert x <= y * (1.0 + TOLERANCE) <==> x * 1000000000.0 <= y * 1000000001.0;
    assert (w * BILLION) as real == x * 1000000000.0;
    assert Limit(o) as real == y * 1000000001.0;
  }

  lemma {:induction false} ScaleBack(x: real, y: real, z: real)
    requires z > 0.0
    ensures x / z <= y / z <==> x <= y
  {
    assert x == (x / z) * z && y == (y / z) * z;
    if x / z <= y / z {
      assert (y / z - x / z) * z >= 0.0;
    } else {
      assert (x / z - y / z) * z > 0.0;
    }
  }

  lemma {:induction false} TailIsSum(m: nat, n: nat, c: nat, o: nat, lo: int, hi: int)
    requires c <= m + n && Choose(m + n, c) > 0
    ensures Tail(m, n, c, o as real / Choose(m + n, c) as real * (1.0 + TOLERANCE), lo, hi)
            == Sum(m, n, c, Some(Limit(o)), lo, hi) as real / Choose(m + n, c) as real
    decreases hi - lo + 1
  {
    var t := Choose(m + n, c);
    if hi < lo {
      assert 0.0 / t as real == 0.0;
    } else {
      TailIsSum(m, n, c, o, lo, hi - 1);
      SameCut(Weight(m, n, c, hi), o, t);
      var s, k := Sum(m, n, c, Some(Limit(o)), lo, hi - 1), Kept(Weight(m, n, c, hi), Some(Limit(o)));
      assert (s + k) as real == s as real + k as real;
      AddQuotients(s as real, k as real, t as real);
      assert k == 0 ==> k as real / t as real == 0.0;
    }
  }

  lemma {:induction false} AddQuotients(x: real, y: real, z: real)
    requires z > 0.0
    ensures (x + y) / z == x / z + y / z
  {
  }

  lemma {:induction false} KeptAtMost(m: nat, n: nat, c: int, limit: Option<int>, lo: int, hi: int)
    ensures Sum(m, n, c, limit, lo, hi) <= Sum(m, n, c, None, lo, hi)
    decreases hi - lo + 1
  {
    if lo <= hi {
      KeptAtMost(m, n, c, limit, lo, hi - 1);
    }
  }

  lemma {:induction false} KeptIncludes(m: nat, n: nat, c: int, limit: Option<int>, lo: int, hi: int, k: int)
    requires lo <= k <= hi
    ensures Sum(m, n, c, limit, lo, hi) >= Kept(Weight(m, n, c, k), limit)
    decreases hi - lo + 1
  {
    if k < hi {
      KeptIncludes(m, n, c, limit, lo, hi - 1, k);
    }
  }

  function KeptTotal(a: nat, b: nat, c: nat, d: nat): (r: nat) {
    var m, n, c1 := a + b, c + d, a + c;
    Sum(m, n, c1, Some(Limit(Weight(m, n, c1, a))), Low(n, c1), High(m, c1))
  }

  lemma {:induction false} UncappedIsQuotient(a: nat, b: nat, c: nat, d: nat)
    ensures Choose(a + b + c + d, a + c) > 0
    ensures Uncapped(a, b, c, d) == KeptTotal(a, b, c, d) as real / Choose(a + b + c + d, a + c) as real
  {
    var m, n, c1 := a + b, c + d, a + c;
    ChooseSupport(m + n, c1);
    var o := Weight(m, n, c1, a);
    assert Probability(m, n, c1, a) == o as real / Choose(m + n, c1) as real;
    TailIsSum(m, n, c1, o, Low(n, c1), High(m, c1));
    assert m + n == a + b + c + d;
  }

  lemma {:induction false} KeptTotalBounds(a: nat, b: nat, c: nat, d: nat)
    ensures 0 < KeptTotal(a, b, c, d) <= Choose(a + b + c + d, a + c)
  {
    var m, n, c1 := a + b, c + d, a + c;
    assert m + n == a + b + c + d;
    var limit := Some(Limit(Weight(m, n, c1, a)));
    WeightSupport(m, n, c1, a);
    KeptIncludes(m, n, c1, limit, Low(n, c1), High(m, c1), a);
    KeptAtMost(m, n, c1, limit, Low(n, c1), High(m, c1));
    SupportSum(m, n, c1);
  }

  lemma {:induction false} UnitQuotient(x: real, y: real)
    requires 0.0 < x <= y
    ensures 0.0 < x / y <= 1.0
  {
    ScaleBack(x, y, y);
    assert y / y == 1.0;
  }

  /** The value lies in (0, 1], so the cap at one never bites. */
  lemma {:induction false} ValueInUnit(a: nat, b: nat, c: nat, d: nat)
    ensures 0.0 < FisherP(a, b, c, d) <= 1.0
    ensures FisherP(a, b, c, d) == Uncapped(a, b, c, d)
  {
    UncappedIsQuotient(a, b, c, d);
    KeptTotalBounds(a, b, c, d);
    UnitQuotient(KeptTotal(a, b, c, d) as real, Choose(a + b + c + d, a + c) as real);
  }

  // ----------------------------------------------------------- symmetries

  lemma {:induction false} SumFromLow(m: nat, n: nat, c: int, limit: Option<int>, lo: int, hi: int)
    requires lo <= hi
    ensures Sum(m, n, c, limit, lo, hi) == Kept(Weight(m, n, c, lo), limit) + Sum(m, n, c, limit, lo + 1, hi)
  {
    SumSplit(m, n, c, limit, lo, lo, hi);
    assert Sum(m, n, c, limit, lo, lo - 1) == 0;
  }

  /** Reading the first arm's successes as the second arm's reverses the range. */
  lemma {:induction false} SwappedSum(m: nat, n: nat, c: int, limit: Option<int>, lo: int, hi: int)
    ensures Sum(n, m, c, limit, c - hi, c - lo) == Sum(m, n, c, limit, lo, hi)
    decreases hi - lo + 1
  {
    if lo <= hi {
      SwappedSum(m, n, c, limit, lo, hi - 1);
      SumFromLow(n, m, c, limit, c - hi, c - lo);
      SwappedWeight(m, n, c, hi);
    }
  }

  lemma {:induction false} SwappedWeight(m: nat, n: nat, c: int, k: int)
    ensures Weight(n, m, c, c - k) == Weight(m, n, c, k)
  {
    assert c - (c - k) == k;
    Commute(Choose(n, c - k), Choose(m, k));
  }

  lemma {:induction false} Commute(a: nat, b: nat)
    ensures a * b == b * a
  {
  }

  /** Swapping the two arms does not change the value. */
  lemma {:induction false} ArmsSwap(a: nat, b: nat, c: nat, d: nat)
    ensures FisherP(c, d, a, b) == FisherP(a, b, c, d)
  {
    var m, n, c1 := a + b, c + d, a + c;
    SwappedWeight(m, n, c1, a);
    assert c1 - a == c && c + a == c1;
    assert c1 - High(m, c1) == Low(m, c1) && c1 - Low(n, c1) == High(n, c1);
    SwappedSum(m, n, c1, Some(Limit(Weight(m, n, c1, a))), Low(n, c1), High(m, c1));
    SameQuotient(a, b, c, d, c, d, a, b);
  }

  lemma {:induction false} FlippedWeight(m: nat, n: nat, c: int, k: int)
    ensures Weight(m, n, m + n - c, m - k) == Weight(m, n, c, k)
  {
    ChooseSymmetric(m, k);
    ChooseSymmetric(n, c - k);
    assert m + n - c - (m - k) == n - (c - k);
  }

  lemma {:induction false} FlippedSum(m: nat, n: nat, c: int, limit: Option<int>, lo: int, hi: int)
    ensures Sum(m, n, m + n - c, limit, m - hi, m - lo) == Sum(m, n, c, limit, lo, hi)
    decreases hi - lo + 1
  {
    if lo <= hi {
      FlippedSum(m, n, c, limit, lo, hi - 1);
      SumFromLow(m, n, m + n - c, limit, m - hi, m - lo);
      FlippedWeight(m, n, c, hi);
    }
  }

  /** Nor does counting failures instead of successes. */
  lemma {:induction false} OutcomesSwap(a: nat, b: nat, c: nat, d: nat)
    ensures FisherP(b, a, d, c) == FisherP(a, b, c, d)
  {
    var m, n, c1 := a + b, c + d, a + c;
    FlippedWeight(m, n, c1, a);
    assert m - a == b && b + d == m + n - c1 && b + a == m && d + c == n;
    assert m - High(m, c1) == Low(n, b + d) && m - Low(n, c1) == High(m, b + d);
    FlippedSum(m, n, c1, Some(Limit(Weight(m, n, c1, a))), Low(n, c1), High(m, c1));
    SameQuotient(a, b, c, d, b, a, d, c);
  }

  lemma {:induction false} SameQuotient(a: nat, b: nat, c: nat, d: nat, e: nat, f: nat, g: nat, h: nat)
    requires a + b + c + d == e + f + g + h && (a + c == e + g || a + c == f + h)
    requires KeptTotal(a, b, c, d) == KeptTotal(e, f, g, h)
    ensures FisherP(a, b, c, d) == FisherP(e, f, g, h)
  {
    UncappedIsQuotient(a, b, c, d);
    UncappedIsQuotient(e, f, g, h);
    ChooseSymmetric(a + b + c + d, a + c);
  }

  // ------------------------------------------- the tolerance, exactly

  /** A table more likely than the observed one that the tolerance still lets in. */
  predicate Excess(m: nat, n: nat, c: int, o: nat, k: int) {
    o < Weight(m, n, c, k) && Weight(m, n, c, k) * BILLION <= Limit(o)
  }

  ghost predicate AnyExcess(m: nat, n: nat, c: int, o: nat, lo: int, hi: int) {
    exists k :: lo <= k <= hi && Excess(m, n, c, o, k)
  }

  /** The sum is that of the tables no more likely than the observed one exactly
      when the tolerance lets no other in. */
  lemma {:induction false} ToleranceExactly(m: nat, n: nat, c: int, o: nat, lo: int, hi: int)
    ensures Sum(m, n, c, Some(o * BILLION), lo, hi) <= Sum(m, n, c, Some(Limit(o)), lo, hi)
    ensures Sum(m, n, c, Some(o * BILLION), lo, hi) == Sum(m, n, c, Some(Limit(o)), lo, hi)
            <==> !AnyExcess(m, n, c, o, lo, hi)
    decreases hi - lo + 1
  {
    if lo <= hi {
      ToleranceExactly(m, n, c, o, lo, hi - 1);
      var w := Weight(m, n, c, hi);
      assert Kept(w, Some(o * BILLION)) <= Kept(w, Some(Limit(o)));
      assert Kept(w, Some(o * BILLION)) == Kept(w, Some(Limit(o))) <==> !Excess(m, n, c, o, hi);
      assert AnyExcess(m, n, c, o, lo, hi) <==> AnyExcess(m, n, c, o, lo, hi - 1) || Excess(m, n, c, o, hi);
    }
  }

  /** Below a billion observed tables the tolerance lets nothing in. */
  lemma {:induction false} ToleranceInert(m: nat, n: nat, c: int, o: nat, lo: int, hi: int)
    requires o < BILLION
    ensures !AnyExcess(m, n, c, o, lo, hi)
  {
    assert Limit(o) < (o + 1) * BILLION;
  }

  /** The conventional definition: every table no more likely than the observed one. */
  function Conventional(a: nat, b: nat, c: nat, d: nat): (r: real) {
    var m, n, c1 := a + b, c + d, a + c;
    ChooseSupport(m + n, c1);
    Sum(m, n, c1, Some(Weight(m, n, c1, a) * BILLION), Low(n, c1), High(m, c1)) as real / Choose(m + n, c1) as real
  }

  /** The value is the conventional one exactly when no table of the support is
      more likely than the observed one by a factor the tolerance hides. */
  lemma {:induction false} ConventionalExactly(a: nat, b: nat, c: nat, d: nat)
    ensures var m, n, c1 := a + b, c + d, a + c;
            FisherP(a, b, c, d) == Conventional(a, b, c, d) <==>
            !AnyExcess(m, n, c1, Weight(m, n, c1, a), Low(n, c1), High(m, c1))
  {
    var m, n, c1 := a + b, c + d, a + c;
    var o := Weight(m, n, c1, a);
    ValueInUnit(a, b, c, d);
    UncappedIsQuotient(a, b, c, d);
    ToleranceExactly(m, n, c1, o, Low(n, c1), High(m, c1));
    assert m + n == a + b + c + d;
    var x, y := KeptTotal(a, b, c, d), Sum(m, n, c1, Some(o * BILLION), Low(n, c1), High(m, c1));
    ScaleBack(x as real, y as real, Choose(m + n, c1) as real);
    ScaleBack(y as real, x as real, Choose(m + n, c1) as real);
  }

  // ------------------------------------- the excess, read off the margins

  lemma {:induction false} AbsorbStep(x: int, y: int, z: int, n: int, k: int)
    requires y * k == x * (n - k) && x * (k - 1) == z * (n - k + 1)
    ensures (x + y) * k == (z + x) * (n - k + 1)
  {
    assert (x + y) * k == x * k + y * k;
    assert x * k + x * (n - k) == x * n;
    assert (z + x) * (n - k + 1) == z * (n - k + 1) + x * (n - k + 1);
    assert x * (k - 1) + x * (n - k + 1) == x * n;
  }

  lemma {:induction false} Absorb(n: nat, k: nat)
    ensures Choose(n, k) * k == Choose(n, k - 1) * (n - k + 1)
    decreases n
  {
    if k > 0 && n > 0 {
      Absorb(n - 1, k);
      Absorb(n - 1, k - 1);
      assert Choose(n, k - 1) == Choose(n - 1, k - 2) + Choose(n - 1, k - 1);
      AbsorbStep(Choose(n - 1, k - 1), Choose(n - 1, k), Choose(n - 1, k - 2), n, k);
    } else if k > 1 {
      assert Choose(n, k) == 0 && Choose(n, k - 1) == 0;
    }
  }

  lemma {:induction false} Rearrange(a: int, b: int, x: int, y: int)
    ensures (a * b) * (x * y) == (a * x) * (b * y)
  {
    assert (a * b) * (x * y) == a * (b * (x * y)) == a * (x * (b * y));
  }

  /** Neighbouring weights are in the ratio of two products of margins. */
  lemma {:induction false} Neighbours(m: nat, n: nat, c: nat, i: nat)
    requires i < c
    ensures Weight(m, n, c, i) * ((m - i) * (c - i)) == Weight(m, n, c, i + 1) * ((i + 1) * (n - c + i + 1))
  {
    Absorb(m, i + 1);
    Absorb(n, c - i);
    assert c - i - 1 == c - (i + 1) && n - (c - i) + 1 == n - c + i + 1;
    Rearrange(Choose(m, i), Choose(n, c - i), m - i, c - i);
    Rearrange(Choose(m, i + 1), Choose(n, c - (i + 1)), i + 1, n - c + i + 1);
  }

  function Falls(m: nat, c: nat, k: nat, a: nat): (r: int)
    requires k <= a
    decreases a
  {
    if a == k then 1 else Falls(m, c, k, a - 1) * ((m - (a - 1)) * (c - (a - 1)))
  }

  function Rises(n: nat, c: nat, k: nat, a: nat): (r: int)
    requires k <= a
    decreases a
  {
    if a == k then 1 else Rises(n, c, k, a - 1) * (a * (n - c + a))
  }

  lemma {:induction false} ChainRatio(w0: int, w1: int, w2: int, f: int, r: int, x: int, y: int)
    requires w0 * f == w1 * r && w1 * x == w2 * y
    ensures w0 * (f * x) == w2 * (r * y)
  {
    assert w0 * (f * x) == (w0 * f) * x == (w1 * r) * x == r * (w1 * x) == r * (w2 * y) == w2 * (r * y);
  }

  lemma {:induction false} WeightRatio(m: nat, n: nat, c: nat, k: nat, a: nat)
    requires k <= a <= c
    ensures Weight(m, n, c, k) * Falls(m, c, k, a) == Weight(m, n, c, a) * Rises(n, c, k, a)
    decreases a
  {
    if k < a {
      WeightRatio(m, n, c, k, a - 1);
      Neighbours(m, n, c, a - 1);
      ChainRatio(Weight(m, n, c, k), Weight(m, n, c, a - 1), Weight(m, n, c, a), Falls(m, c, k, a - 1),
                 Rises(n, c, k, a - 1), (m - (a - 1)) * (c - (a - 1)), a * (n - c + a));
    }
  }

  lemma {:induction false} ProductsPositive(m: nat, n: nat, c: nat, k: nat, a: nat)
    requires Low(n, c) <= k <= a <= High(m, c)
    ensures Falls(m, c, k, a) >= 1 && Rises(n, c, k, a) >= 1
    decreases a
  {
    if k < a {
      ProductsPositive(m, n, c, k, a - 1);
      Positive(m - (a - 1), c - (a - 1));
      Positive(a, n - c + a);
      Positive(Falls(m, c, k, a - 1), (m - (a - 1)) * (c - (a - 1)));
      Positive(Rises(n, c, k, a - 1), a * (n - c + a));
    }
  }

  /** `r` exceeds `f` by at most one part in a billion. */
  predicate Hidden(f: int, r: int) {
    f < r && (r - f) * BILLION <= f
  }

  lemma {:induction false} CrossRatio(w: nat, o: nat, f: int, r: int)
    requires w > 0 && o > 0 && f > 0 && r > 0 && w * f == o * r
    ensures o < w && w * BILLION <= Limit(o) <==> Hidden(f, r)
  {
    var d, e := w - o, r - f;
    assert d * f == o * e by {
      assert d * f == w * f - o * f && o * e == o * r - o * f;
    }
    SameSign(d, f, o, e);
    SameScale(d, f, o, e);
    assert w * BILLION <= Limit(o) <==> d * BILLION <= o;
  }

  lemma {:induction false} SameSign(d: int, f: int, o: int, e: int)
    requires f > 0 && o > 0 && d * f == o * e
    ensures d > 0 <==> e > 0
  {
    if d > 0 {
      Positive(d, f);
      assert e <= 0 ==> o * e <= 0;
    } else {
      assert d * f <= 0;
      assert e > 0 ==> o * e > 0;
    }
  }

  lemma {:induction false} SameScale(d: int, f: int, o: int, e: int)
    requires f > 0 && o > 0 && d * f == o * e
    ensures d * BILLION <= o <==> e * BILLION <= f
  {
    assert (d * BILLION) * f == o * (e * BILLION) by {
      assert (d * BILLION) * f == (d * f) * BILLION && o * (e * BILLION) == (o * e) * BILLION;
    }
    var x, y := d * BILLION, e * BILLION;
    assert x * f == o * y;
    if x <= o {
      assert x * f <= o * f;
      assert y > f ==> o * y > o * f;
    } else {
      assert x * f > o * f;
      assert y <= f ==> o * y <= o * f;
    }
  }

  /** The tolerance lets `k` in at the observed `a` exactly when the products of the
      margins between them differ by at most one part in a billion, in that sense. */
  predicate MarginExcess(m: nat, n: nat, c: nat, a: nat, k: nat) {
    if k <= a then Hidden(Falls(m, c, k, a), Rises(n, c, k, a))
    else Hidden(Rises(n, c, a, k), Falls(m, c, a, k))
  }

  lemma {:induction false} ExcessFromMargins(m: nat, n: nat, c: nat, a: nat, k: nat)
    requires Low(n, c) <= a <= High(m, c) && Low(n, c) <= k <= High(m, c)
    ensures Excess(m, n, c, Weight(m, n, c, a), k) <==> MarginExcess(m, n, c, a, k)
  {
    WeightSupport(m, n, c, a);
    WeightSupport(m, n, c, k);
    if k <= a {
      WeightRatio(m, n, c, k, a);
      ProductsPositive(m, n, c, k, a);
      CrossRatio(Weight(m, n, c, k), Weight(m, n, c, a), Falls(m, c, k, a), Rises(n, c, k, a));
    } else {
      WeightRatio(m, n, c, a, k);
      ProductsPositive(m, n, c, a, k);
      CrossRatio(Weight(m, n, c, k), Weight(m, n, c, a), Rises(n, c, a, k), Falls(m, c, a, k));
    }
  }

  ghost predicate NothingHidden(m: nat, n: nat, c: nat, a: nat) {
    forall k: nat :: Low(n, c) <= k <= High(m, c) ==> !MarginExcess(m, n, c, a, k)
  }

  /** The value is the conventional one exactly when the margins hide no table. */
  lemma {:induction false} ConventionalFromMargins(a: nat, b: nat, c: nat, d: nat)
    ensures FisherP(a, b, c, d) == Conventional(a, b, c, d) <==>
      NothingHidden(a + b, c + d, a + c, a)
  {
    var m, n, c1 := a + b, c + d, a + c;
    ConventionalExactly(a, b, c, d);
    forall k: nat | Low(n, c1) <= k <= High(m, c1)
      ensures Excess(m, n, c1, Weight(m, n, c1, a), k) <==> MarginExcess(m, n, c1, a, k)
    {
      ExcessFromMargins(m, n, c1, a, k);
    }
  }

  lemma {:induction false} FactorGrows(x: int, y: int)
    requires x >= 1 && y >= 1
    ensures x * y >= x && x * y >= y
  {
  }

  lemma {:induction false} ProductsGrow(m: nat, n: nat, c: nat, k: nat, a: nat, hi: nat)
    requires Low(n, c) <= k <= a <= hi <= High(m, c)
    ensures Falls(m, c, k, a) <= Falls(m, c, k, hi) && Rises(n, c, k, a) <= Rises(n, c, k, hi)
    decreases hi
  {
    if a < hi {
      ProductsGrow(m, n, c, k, a, hi - 1);
      ProductsPositive(m, n, c, k, hi - 1);
      Positive(m - (hi - 1), c - (hi - 1));
      Positive(hi, n - c + hi);
      FactorGrows(Falls(m, c, k, hi - 1), (m - (hi - 1)) * (c - (hi - 1)));
      FactorGrows(Rises(n, c, k, hi - 1), hi * (n - c + hi));
    }
  }

  lemma {:induction false} ProductsGrowDown(m: nat, n: nat, c: nat, lo: nat, k: nat, a: nat)
    requires Low(n, c) <= lo <= k <= a <= High(m, c)
    ensures Falls(m, c, k, a) <= Falls(m, c, lo, a) && Rises(n, c, k, a) <= Rises(n, c, lo, a)
    decreases a
  {
    if k == a {
      ProductsPositive(m, n, c, lo, a);
    } else {
      ProductsGrowDown(m, n, c, lo, k, a - 1);
      Positive(m - (a - 1), c - (a - 1));
      Positive(a, n - c + a);
      MulOrder(Falls(m, c, k, a - 1), Falls(m, c, lo, a - 1), (m - (a - 1)) * (c - (a - 1)));
      MulOrder(Rises(n, c, k, a - 1), Rises(n, c, lo, a - 1), a * (n - c + a));
    }
  }

  lemma {:induction false} MulOrder(x: int, y: int, z: int)
    requires x <= y && z > 0
    ensures x * z <= y * z
  {
  }

  /** A bound on the margins alone: two products below a billion, over the whole
      support, and every table with these margins gets its conventional value. */
  lemma {:induction false} SmallMargins(a: nat, b: nat, c: nat, d: nat)
    requires var m, n, c1 := a + b, c + d, a + c;
             Falls(m, c1, Low(n, c1), High(m, c1)) < BILLION && Rises(n, c1, Low(n, c1), High(m, c1)) < BILLION
    ensures FisherP(a, b, c, d) == Conventional(a, b, c, d)
  {
    var m, n, c1 := a + b, c + d, a + c;
    ConventionalFromMargins(a, b, c, d);
    forall k: nat | Low(n, c1) <= k <= High(m, c1)
      ensures !MarginExcess(m, n, c1, a, k)
    {
      var x, y := if k <= a then k else a, if k <= a then a else k;
      ProductsGrow(m, n, c1, x, y, High(m, c1));
      ProductsGrowDown(m, n, c1, Low(n, c1), x, High(m, c1));
      assert Falls(m, c1, x, y) < BILLION && Rises(n, c1, x, y) < BILLION;
    }
  }

  /** Where the tolerance bites: one episode in the first arm, a success, against
      `2c` in the second with `c` successes in all. The other table is more likely
      by one part in `c`, and from a billion on it is counted. */
  lemma {:induction false} ToleranceBites(c: nat)
    requires c >= 1
    ensures FisherP(1, 0, c - 1, c + 1) != Conventional(1, 0, c - 1, c + 1) <==> c >= BILLION
  {
    ConventionalFromMargins(1, 0, c - 1, c + 1);
    assert Low(2 * c, c) == 0 && High(1, c) == 1;
    assert Falls(1, c, 0, 0) == 1 && Falls(1, c, 0, 1) == c;
    assert Rises(2 * c, c, 0, 0) == 1 && Rises(2 * c, c, 0, 1) == c + 1;
    assert MarginExcess(1, 2 * c, c, 1, 0) <==> c >= BILLION;
    assert !MarginExcess(1, 2 * c, c, 1, 1);
    assert NothingHidden(1, 2 * c, c, 1) <==> !MarginExcess(1, 2 * c, c, 1, 0);
    assert (c - 1) + (c + 1) == 2 * c && 1 + (c - 1) == c;
  }
}
