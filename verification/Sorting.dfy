/** Stable insertion sort by a total preorder, as `sorted`, and the code point
    order of strings. */
module Sorting {

  ghost predicate TotalPreorder<T(!new)>(le: (T, T) -> bool) {
    && (forall a, b :: le(a, b) || le(b, a))
    && (forall a, b, c :: le(a, b) && le(b, c) ==> le(a, c))
  }

  function Insert<T>(x: T, s: seq<T>, le: (T, T) -> bool): (r: seq<T>) {
    if s == [] || le(x, s[0]) then [x] + s else [s[0]] + Insert(x, s[1..], le)
  }

  function Sort<T>(s: seq<T>, le: (T, T) -> bool): (r: seq<T>) {
    if s == [] then [] else Insert(s[0], Sort(s[1..], le), le)
  }

  predicate SortedBy<T>(s: seq<T>, le: (T, T) -> bool) {
    forall i, j :: 0 <= i < j < |s| ==> le(s[i], s[j])
  }

  /** The elements that compare equal to `e`, in order. */
  function Like<T>(s: seq<T>, le: (T, T) -> bool, e: T): (r: seq<T>) {
    if s == [] then [] else (if le(s[0], e) && le(e, s[0]) then [s[0]] else []) + Like(s[1..], le, e)
  }

  lemma {:induction false} InsertFrom<T>(x: T, s: seq<T>, le: (T, T) -> bool, i: nat)
    requires i < |Insert(x, s, le)|
    ensures Insert(x, s, le)[i] == x || Insert(x, s, le)[i] in s
  {
    if s != [] && !le(x, s[0]) && i > 0 {
      InsertFrom(x, s[1..], le, i - 1);
    }
  }

  lemma {:induction false} InsertSorted<T(!new)>(x: T, s: seq<T>, le: (T, T) -> bool)
    requires TotalPreorder(le) && SortedBy(s, le)
    ensures SortedBy(Insert(x, s, le), le)
  {
    if s != [] && !le(x, s[0]) {
      var rest := Insert(x, s[1..], le);
      InsertSorted(x, s[1..], le);
      forall i | 0 <= i < |rest|
        ensures le(s[0], rest[i])
      {
        InsertFrom(x, s[1..], le, i);
      }
    }
  }

  lemma {:induction false} InsertBag<T>(x: T, s: seq<T>, le: (T, T) -> bool)
    ensures multiset(Insert(x, s, le)) == multiset(s) + multiset{x}
  {
    if s != [] && !le(x, s[0]) {
      InsertBag(x, s[1..], le);
      assert s == [s[0]] + s[1..];
    }
  }

  lemma {:induction false} LikeCons<T>(x: T, s: seq<T>, le: (T, T) -> bool, e: T)
    ensures Like([x] + s, le, e) == (if le(x, e) && le(e, x) then [x] else []) + Like(s, le, e)
  {
    assert ([x] + s)[1..] == s;
  }

  lemma {:induction false} InsertStable<T(!new)>(x: T, s: seq<T>, le: (T, T) -> bool, e: T)
    requires TotalPreorder(le)
    ensures Like(Insert(x, s, le), le, e) == (if le(x, e) && le(e, x) then [x] else []) + Like(s, le, e)
  {
    if s == [] || le(x, s[0]) {
      LikeCons(x, s, le, e);
    } else {
      var rest := s[1..];
      InsertStable(x, rest, le, e);
      LikeCons(s[0], Insert(x, rest, le), le, e);
      LikeCons(s[0], rest, le, e);
      assert s == [s[0]] + rest;
    }
  }

  /** Sorted, a permutation, and elements that compare equal keep their order. */
  lemma {:induction false} SortCorrect<T(!new)>(s: seq<T>, le: (T, T) -> bool)
    requires TotalPreorder(le)
    ensures SortedBy(Sort(s, le), le) && multiset(Sort(s, le)) == multiset(s)
    ensures forall e :: Like(Sort(s, le), le, e) == Like(s, le, e)
  {
    if s != [] {
      SortCorrect(s[1..], le);
      InsertSorted(s[0], Sort(s[1..], le), le);
      InsertBag(s[0], Sort(s[1..], le), le);
      assert s == [s[0]] + s[1..];
      forall e
        ensures Like(Sort(s, le), le, e) == Like(s, le, e)
      {
        InsertStable(s[0], Sort(s[1..], le), le, e);
      }
    }
  }

  predicate AscendAt<T>(p: seq<nat>, le: (T, T) -> bool, t: seq<T>, i: nat, j: nat)
    requires i < j < |p| && |p| == |t|
  {
    p[i] != p[j] && le(t[i], t[j]) && (le(t[j], t[i]) ==> p[i] < p[j])
  }

  /** `t` lists `s` by the positions `p`: ascending, and equal elements by position. */
  ghost predicate Positions<T(!new)>(p: seq<nat>, s: seq<T>, le: (T, T) -> bool, t: seq<T>) {
    && |p| == |s| == |t| && (forall i :: 0 <= i < |p| ==> p[i] < |s| && t[i] == s[p[i]])
    && forall i, j :: 0 <= i < j < |p| ==> AscendAt(p, le, t, i, j)
  }

  lemma {:induction false} InsertAt<T>(x: T, s: seq<T>, le: (T, T) -> bool) returns (k: nat)
    ensures k <= |s| && Insert(x, s, le) == s[..k] + [x] + s[k..]
    ensures (forall i :: 0 <= i < k ==> !le(x, s[i])) && (k < |s| ==> le(x, s[k]))
  {
    if s == [] || le(x, s[0]) {
      k := 0;
    } else {
      k := InsertAt(x, s[1..], le);
      k := k + 1;
      assert s[..k] == [s[0]] + s[1..][..k - 1] && s[k..] == s[1..][k - 1..];
    }
  }

  function Shifted(p: seq<nat>): (r: seq<nat>)
    ensures |r| == |p| && forall i :: 0 <= i < |p| ==> r[i] == p[i] + 1
  {
    seq(|p|, i requires 0 <= i < |p| => p[i] + 1)
  }

  lemma {:induction false} GrowPair<T(!new)>(x: T, le: (T, T) -> bool, u: seq<T>, q: seq<nat>, k: nat, i: nat, j: nat)
    requires TotalPreorder(le) && |q| == |u| && k <= |u| && i < j <= |u|
    requires forall m, n :: 0 <= m < n < |q| ==> AscendAt(q, le, u, m, n)
    requires (forall m :: 0 <= m < k ==> !le(x, u[m])) && (k < |u| ==> le(x, u[k]))
    ensures AscendAt(Shifted(q)[..k] + [0] + Shifted(q)[k..], le, u[..k] + [x] + u[k..], i, j)
  {
    if i != k && j != k {
      assert AscendAt(q, le, u, if i < k then i else i - 1, if j < k then j else j - 1);
    } else if i == k {
      assert j - 1 > k ==> AscendAt(q, le, u, k, j - 1);
    }
  }

  lemma {:induction false} PositionsGrow<T(!new)>(x: T, s: seq<T>, le: (T, T) -> bool, u: seq<T>, q: seq<nat>, k: nat)
    requires TotalPreorder(le) && s != [] && s[0] == x && Positions(q, s[1..], le, u) && k <= |u|
    requires (forall i :: 0 <= i < k ==> !le(x, u[i])) && (k < |u| ==> le(x, u[k]))
    ensures Positions(Shifted(q)[..k] + [0] + Shifted(q)[k..], s, le, u[..k] + [x] + u[k..])
  {
    var p, t := Shifted(q)[..k] + [0] + Shifted(q)[k..], u[..k] + [x] + u[k..];
    forall i | 0 <= i < |p|
      ensures p[i] < |s| && t[i] == s[p[i]]
    {
      assert i != k ==> p[i] == q[if i < k then i else i - 1] + 1;
    }
    forall i, j | 0 <= i < j < |p|
      ensures AscendAt(p, le, t, i, j)
    {
      GrowPair(x, le, u, q, k, i, j);
    }
  }

  /** Sorting lists the elements by their positions: ascending, ties in order. */
  lemma {:induction false} SortPositions<T(!new)>(s: seq<T>, le: (T, T) -> bool) returns (p: seq<nat>)
    requires TotalPreorder(le)
    ensures Positions(p, s, le, Sort(s, le))
  {
    if s == [] {
      p := [];
    } else {
      var q := SortPositions(s[1..], le);
      var k := InsertAt(s[0], Sort(s[1..], le), le);
      PositionsGrow(s[0], s, le, Sort(s[1..], le), q, k);
      p := Shifted(q)[..k] + [0] + Shifted(q)[k..];
    }
  }

  lemma {:induction false} InsertMembers<T>(x: T, s: seq<T>, le: (T, T) -> bool, e: T)
    ensures e in Insert(x, s, le) <==> e == x || e in s
  {
    if s != [] && !le(x, s[0]) {
      InsertMembers(x, s[1..], le, e);
    }
  }

  lemma {:induction false} SortMembers<T>(s: seq<T>, le: (T, T) -> bool, e: T)
    ensures e in Sort(s, le) <==> e in s
  {
    if s != [] {
      SortMembers(s[1..], le, e);
      InsertMembers(s[0], Sort(s[1..], le), le, e);
    }
  }

  /** What is sorted already stays as it is. */
  lemma {:induction false} SortFixed<T>(s: seq<T>, le: (T, T) -> bool)
    requires SortedBy(s, le)
    ensures Sort(s, le) == s
  {
    if s != [] {
      SortFixed(s[1..], le);
      assert s == [s[0]] + s[1..];
    }
  }

  lemma {:induction false} SortPair<T>(x: T, y: T, le: (T, T) -> bool)
    ensures Sort([x, y], le) == if le(x, y) then [x, y] else [y, x]
  {
    assert [x, y][1..] == [y] && [y][1..] == [];
    assert Sort([y], le) == [y];
    assert Insert(x, [], le) == [x];
  }

  // ------------------------------------------------------------ string order

  /** `a <= b` on strings. */
  predicate TextLe(a: string, b: string) {
    a == [] || (b != [] && (a[0] < b[0] || (a[0] == b[0] && TextLe(a[1..], b[1..]))))
  }

  lemma {:induction false} TextLeTotal(a: string, b: string)
    ensures TextLe(a, b) || TextLe(b, a)
    ensures TextLe(a, b) && TextLe(b, a) ==> a == b
  {
    if a != [] && b != [] {
      TextLeTotal(a[1..], b[1..]);
      assert a == [a[0]] + a[1..] && b == [b[0]] + b[1..];
    }
  }

  lemma {:induction false} TextLeTransitive(a: string, b: string, c: string)
    requires TextLe(a, b) && TextLe(b, c)
    ensures TextLe(a, c)
  {
    if a != [] && a[0] == b[0] && b[0] == c[0] {
      TextLeTransitive(a[1..], b[1..], c[1..]);
    }
  }

  /** At the first place where they differ, `a` has the smaller character. */
  predicate DiffersAt(a: string, b: string, i: nat) {
    i < |a| && i < |b| && a[..i] == b[..i] && a[i] < b[i]
  }

  lemma {:induction false} DiffersFurther(a: string, b: string, i: nat)
    requires a != [] && b != [] && a[0] == b[0]
    ensures DiffersAt(a, b, i + 1) <==> DiffersAt(a[1..], b[1..], i)
  {
    if i < |a| - 1 && i < |b| - 1 {
      assert a[..i + 1] == [a[0]] + a[1..][..i] && b[..i + 1] == [b[0]] + b[1..][..i];
      if a[..i + 1] == b[..i + 1] {
        assert a[1..][..i] == a[..i + 1][1..] == b[1..][..i];
      }
    }
  }

  lemma {:induction false} PrefixFurther(a: string, b: string)
    requires a != [] && b != [] && a[0] == b[0]
    ensures a <= b <==> a[1..] <= b[1..]
  {
    assert a == [a[0]] + a[1..] && b == [b[0]] + b[1..];
  }

  /** It is the order of dictionaries by code points: a prefix comes first. */
  lemma {:induction false} TextLeIs(a: string, b: string)
    ensures TextLe(a, b) <==> a <= b || exists i: nat :: DiffersAt(a, b, i)
  {
    if a != [] && b != [] {
      if a[0] < b[0] {
        assert DiffersAt(a, b, 0);
      } else if a[0] == b[0] {
        TextLeIs(a[1..], b[1..]);
        PrefixFurther(a, b);
        if i: nat :| DiffersAt(a[1..], b[1..], i) {
          DiffersFurther(a, b, i);
        }
        if i: nat :| DiffersAt(a, b, i) {
          DiffersFurther(a, b, i - 1);
        }
      } else {
        forall i: nat
          ensures !DiffersAt(a, b, i)
        {
          if 0 < i <= |a| && i <= |b| {
            assert a[..i][0] == a[0] && b[..i][0] == b[0];
          }
        }
      }
    }
  }

  // ---------------------------------------------------------- sets, in order

  /** Strictly ascending, hence without repetition. */
  predicate Ascending<T(==)>(s: seq<T>, le: (T, T) -> bool) {
    forall i, j :: 0 <= i < j < |s| ==> le(s[i], s[j]) && s[i] != s[j]
  }

  ghost predicate Antisymmetric<T(!new)>(le: (T, T) -> bool) {
    forall a, b :: le(a, b) && le(b, a) ==> a == b
  }

  /** Drops repetitions of an ascending list. */
  function DropRepeats<T(==)>(s: seq<T>): (r: seq<T>) {
    if |s| < 2 then s
    else if s[0] == s[1] then DropRepeats(s[1..])
    else [s[0]] + DropRepeats(s[1..])
  }

  lemma {:induction false} DropRepeatsMembers<T>(s: seq<T>, x: T)
    ensures x in DropRepeats(s) <==> x in s
  {
    if |s| >= 2 {
      DropRepeatsMembers(s[1..], x);
      assert s == [s[0]] + s[1..];
    }
  }

  lemma {:induction false} DropRepeatsAscends<T(!new)>(s: seq<T>, le: (T, T) -> bool)
    requires TotalPreorder(le) && Antisymmetric(le) && SortedBy(s, le)
    ensures Ascending(DropRepeats(s), le)
  {
    if |s| >= 2 {
      var rest := DropRepeats(s[1..]);
      DropRepeatsAscends(s[1..], le);
      forall i | 0 <= i < |rest|
        ensures le(s[0], rest[i]) && (s[0] != s[1] ==> s[0] != rest[i])
      {
        DropRepeatsMembers(s[1..], rest[i]);
        assert rest[i] in s[1..];
      }
    }
  }

  /** `sorted({...})`: the members, strictly ascending. */
  function SortedSet<T(==)>(s: seq<T>, le: (T, T) -> bool): (r: seq<T>) {
    DropRepeats(Sort(s, le))
  }

  lemma {:induction false} SortedSetCorrect<T(!new)>(s: seq<T>, le: (T, T) -> bool)
    requires TotalPreorder(le) && Antisymmetric(le)
    ensures Ascending(SortedSet(s, le), le) && forall x :: x in SortedSet(s, le) <==> x in s
  {
    SortCorrect(s, le);
    DropRepeatsAscends(Sort(s, le), le);
    forall x
      ensures x in SortedSet(s, le) <==> x in s
    {
      DropRepeatsMembers(Sort(s, le), x);
      SortMembers(s, le, x);
    }
  }

  lemma {:induction false} TextOrder()
    ensures TotalPreorder(TextLe) && Antisymmetric(TextLe)
  {
    forall a, b
      ensures (TextLe(a, b) || TextLe(b, a)) && (TextLe(a, b) && TextLe(b, a) ==> a == b)
    {
      TextLeTotal(a, b);
    }
    forall a, b, c | TextLe(a, b) && TextLe(b, c)
      ensures TextLe(a, c)
    {
      TextLeTransitive(a, b, c);
    }
  }
}
