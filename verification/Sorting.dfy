/** Stable sorting by an order on keys, and the order of strings by code points. */
module Sorting {

  import opened Counting

  /** Every two values compare, and comparisons chain. */
  ghost predicate IsOrder<T(!new)>(le: (T, T) -> bool) {
    && (forall x, y :: le(x, y) || le(y, x))
    && (forall x, y, z | le(x, y) && le(y, z) :: le(x, z))
  }

  ghost predicate Sorted<T(!new)>(xs: seq<T>, le: (T, T) -> bool) {
    forall i, j | 0 <= i < j < |xs| :: le(xs[i], xs[j])
  }

  /** `x` comes before values that compare equal. */
  function Insert<T(!new)>(x: T, xs: seq<T>, le: (T, T) -> bool): (r: seq<T>)
    ensures multiset(r) == multiset{x} + multiset(xs)
    ensures forall y :: y in r <==> y == x || y in xs
  {
    if xs == [] then [x]
    else
      assert xs == [xs[0]] + xs[1..];
      if le(x, xs[0]) then [x] + xs else [xs[0]] + Insert(x, xs[1..], le)
  }

  /** `sorted(xs, key=...)`, where `le` compares the keys. */
  function Sort<T(!new)>(xs: seq<T>, le: (T, T) -> bool): (r: seq<T>)
    ensures multiset(r) == multiset(xs)
    ensures forall y :: y in r <==> y in xs
  {
    if xs == [] then []
    else
      assert xs == [xs[0]] + xs[1..];
      Insert(xs[0], Sort(xs[1..], le), le)
  }

  lemma {:induction false} InsertSorted<T(!new)>(x: T, xs: seq<T>, le: (T, T) -> bool)
    requires IsOrder(le) && Sorted(xs, le)
    ensures Sorted(Insert(x, xs, le), le)
  {
    if xs != [] && !le(x, xs[0]) {
      InsertSorted(x, xs[1..], le);
      var r := Insert(x, xs[1..], le);
      forall j | 0 <= j < |r| ensures le(xs[0], r[j]) {
        assert r[j] in r;
      }
    }
  }

  lemma {:induction false} SortSorted<T(!new)>(xs: seq<T>, le: (T, T) -> bool)
    requires IsOrder(le)
    ensures Sorted(Sort(xs, le), le)
  {
    if xs != [] {
      SortSorted(xs[1..], le);
      InsertSorted(xs[0], Sort(xs[1..], le), le);
    }
  }

  lemma NumberCons<T>(x: T, xs: seq<T>, p: T -> bool)
    ensures NumberOf([x] + xs, p) == (if p(x) then 1 else 0) + NumberOf(xs, p)
  {
    NumberConcat([x], xs, p);
    NumberOne(x, p);
  }

  lemma {:induction false} InsertNumber<T(!new)>(x: T, xs: seq<T>, le: (T, T) -> bool, p: T -> bool)
    ensures NumberOf(Insert(x, xs, le), p) == (if p(x) then 1 else 0) + NumberOf(xs, p)
  {
    NumberCons(x, xs, p);
    if xs == [] {
      assert [x] + xs == [x];
    } else {
      assert xs == [xs[0]] + xs[1..];
      InsertNumber(x, xs[1..], le, p);
      NumberCons(xs[0], xs[1..], p);
      NumberCons(xs[0], Insert(x, xs[1..], le), p);
    }
  }

  /** Sorting keeps every number. */
  lemma {:induction false} SortNumber<T(!new)>(xs: seq<T>, le: (T, T) -> bool, p: T -> bool)
    ensures NumberOf(Sort(xs, le), p) == NumberOf(xs, p)
  {
    if xs != [] {
      SortNumber(xs[1..], le, p);
      InsertNumber(xs[0], Sort(xs[1..], le), le, p);
      NumberCons(xs[0], xs[1..], p);
      assert xs == [xs[0]] + xs[1..];
    }
  }

  /** Sorting leaves a sorted list alone. */
  lemma {:induction false} SortedStays<T(!new)>(xs: seq<T>, le: (T, T) -> bool)
    requires Sorted(xs, le)
    ensures Sort(xs, le) == xs
  {
    if xs != [] {
      SortedStays(xs[1..], le);
      assert xs == [xs[0]] + xs[1..];
      assert |xs| > 1 ==> le(xs[0], xs[1]);
    }
  }

  /** Different members of the list compare one way only. */
  ghost predicate Separates<T(!new)>(xs: seq<T>, le: (T, T) -> bool) {
    forall x, y | x in xs && y in xs && le(x, y) && le(y, x) :: x == y
  }

  /** Two sorted lists of the same values are equal when different values compare one way only. */
  lemma {:induction false} SortedUnique<T(!new)>(xs: seq<T>, ys: seq<T>, le: (T, T) -> bool)
    requires Sorted(xs, le) && Sorted(ys, le) && multiset(xs) == multiset(ys) && Separates(xs, le)
    ensures xs == ys
  {
    assert |multiset(xs)| == |xs| && |multiset(ys)| == |ys|;
    if xs != [] {
      SameHead(xs, ys, le);
      SameTail(xs, ys);
      SortedUnique(xs[1..], ys[1..], le);
    }
  }

  lemma SameHead<T(!new)>(xs: seq<T>, ys: seq<T>, le: (T, T) -> bool)
    requires Sorted(xs, le) && Sorted(ys, le) && multiset(xs) == multiset(ys) && Separates(xs, le)
    requires xs != [] && ys != []
    ensures xs[0] == ys[0]
  {
    assert xs[0] in multiset(ys) && ys[0] in multiset(xs);
    var i :| 0 <= i < |xs| && xs[i] == ys[0];
    var j :| 0 <= j < |ys| && ys[j] == xs[0];
    assert i > 0 ==> le(xs[0], xs[i]);
    assert j > 0 ==> le(ys[0], ys[j]);
  }

  lemma SameTail<T(!new)>(xs: seq<T>, ys: seq<T>)
    requires xs != [] && ys != [] && xs[0] == ys[0] && multiset(xs) == multiset(ys)
    ensures multiset(xs[1..]) == multiset(ys[1..])
    ensures xs == [xs[0]] + xs[1..] && ys == [ys[0]] + ys[1..]
  {
    assert xs == [xs[0]] + xs[1..] && ys == [ys[0]] + ys[1..];
    assert multiset(xs[1..]) == multiset(xs) - multiset{xs[0]};
    assert multiset(ys[1..]) == multiset(ys) - multiset{ys[0]};
  }

  /** Sorting gives one result for any arrangement of values that compare one way only. */
  lemma SortIgnoresOrder<T(!new)>(xs: seq<T>, ys: seq<T>, le: (T, T) -> bool)
    requires IsOrder(le) && multiset(xs) == multiset(ys) && Separates(xs, le)
    ensures Sort(xs, le) == Sort(ys, le)
  {
    SortSorted(xs, le);
    SortSorted(ys, le);
    SortedUnique(Sort(xs, le), Sort(ys, le), le);
  }

  /** No value occurs twice. */
  ghost predicate Distinct<T>(xs: seq<T>) {
    forall i, j | 0 <= i < j < |xs| :: xs[i] != xs[j]
  }

  lemma {:induction false} DistinctCounts<T>(xs: seq<T>)
    requires Distinct(xs)
    ensures forall x | x in xs :: multiset(xs)[x] == 1
  {
    if xs != [] {
      DistinctCounts(xs[1..]);
      assert xs == [xs[0]] + xs[1..] && xs[0] !in xs[1..];
    }
  }

  /** Lists of the same values, each once, hold them equally often. */
  lemma SameCounts<T(!new)>(xs: seq<T>, ys: seq<T>)
    requires Distinct(xs) && Distinct(ys) && forall x :: x in xs <==> x in ys
    ensures multiset(xs) == multiset(ys)
  {
    DistinctCounts(xs);
    DistinctCounts(ys);
  }

  lemma {:induction false} CountsDistinct<T>(xs: seq<T>)
    requires forall x | x in xs :: multiset(xs)[x] == 1
    ensures Distinct(xs)
  {
    if xs != [] {
      assert xs == [xs[0]] + xs[1..] && multiset(xs) == multiset{xs[0]} + multiset(xs[1..]) && xs[0] in xs;
      assert xs[0] !in multiset(xs[1..]);
      forall x | x in xs[1..] ensures multiset(xs[1..])[x] == 1 {
        assert x in xs && x != xs[0];
      }
      CountsDistinct(xs[1..]);
    }
  }

  lemma SortDistinct<T(!new)>(xs: seq<T>, le: (T, T) -> bool)
    requires Distinct(xs)
    ensures Distinct(Sort(xs, le))
  {
    DistinctCounts(xs);
    CountsDistinct(Sort(xs, le));
  }

  // ---------------------------------------------------------------------------
  // Orders
  // ---------------------------------------------------------------------------

  function IntLe(): (int, int) -> bool {
    (x, y) => x <= y
  }

  ghost predicate Increasing(xs: seq<int>) {
    forall i, j | 0 <= i < j < |xs| :: xs[i] < xs[j]
  }

  lemma SortIncreasing(xs: seq<int>)
    requires Distinct(xs)
    ensures Increasing(Sort(xs, IntLe()))
  {
    SortSorted(xs, IntLe());
    SortDistinct(xs, IntLe());
    var r := Sort(xs, IntLe());
    hide Sort;
    forall i: nat, j: nat | i < j < |r| ensures r[i] < r[j] {
      assert IntLe()(r[i], r[j]);
    }
  }

  /** A set of integers has one increasing listing. */
  lemma IncreasingUnique(a: seq<int>, b: seq<int>)
    requires Increasing(a) && Increasing(b) && forall x :: x in a <==> x in b
    ensures a == b
  {
    IncreasingSorted(a);
    IncreasingSorted(b);
    assert forall x: int | x in a :: x in b;
    SameCounts(a, b);
    SortedUnique(a, b, IntLe());
  }

  lemma IncreasingSorted(a: seq<int>)
    requires Increasing(a)
    ensures Sorted(a, IntLe()) && Distinct(a)
  {
  }

  /** Comparison of strings by code points. */
  predicate StringLe(a: string, b: string) {
    a == [] || (b != [] && (a[0] < b[0] || (a[0] == b[0] && StringLe(a[1..], b[1..]))))
  }

  /** The first string is a beginning of the second, or has the smaller character where they first differ. */
  ghost predicate IsBefore(a: string, b: string) {
    a <= b || exists k :: 0 <= k < |a| && k < |b| && a[..k] == b[..k] && a[k] < b[k]
  }

  lemma BeforeLonger(c: char, a: string, b: string)
    requires IsBefore(a, b)
    ensures IsBefore([c] + a, [c] + b)
  {
    if k: nat :| k < |a| && k < |b| && a[..k] == b[..k] && a[k] < b[k] {
      var x, y := [c] + a, [c] + b;
      assert x[..k + 1] == [c] + a[..k] && y[..k + 1] == [c] + b[..k] && x[k + 1] < y[k + 1];
    }
  }

  lemma BeforeShorter(c: char, a: string, b: string)
    requires IsBefore([c] + a, [c] + b)
    ensures IsBefore(a, b)
  {
    var x, y := [c] + a, [c] + b;
    assert x[1..] == a && y[1..] == b;
    if x <= y {
      assert a == y[1..|x|] == b[..|a|];
    } else {
      var k: nat :| k < |x| && k < |y| && x[..k] == y[..k] && x[k] < y[k];
      assert a[..k - 1] == x[..k][1..] && b[..k - 1] == y[..k][1..] && a[k - 1] < b[k - 1];
    }
  }

  lemma FirstDiffers(a: string, b: string)
    requires a != [] && b != [] && a[0] != b[0]
    ensures IsBefore(a, b) <==> a[0] < b[0]
  {
    assert a[..0] == b[..0];
    if k: nat :| k < |a| && k < |b| && a[..k] == b[..k] && a[k] < b[k] {
      SameStart(a, b, k);
    }
  }

  lemma {:induction false} StringLeMeans(a: string, b: string)
    ensures StringLe(a, b) <==> IsBefore(a, b)
  {
    if a != [] && b != [] {
      hide IsBefore;
      if a[0] != b[0] {
        FirstDiffers(a, b);
      } else {
        StringLeMeans(a[1..], b[1..]);
        assert a == [a[0]] + a[1..] && b == [a[0]] + b[1..];
        if IsBefore(a[1..], b[1..]) {
          BeforeLonger(a[0], a[1..], b[1..]);
        } else if IsBefore(a, b) {
          BeforeShorter(a[0], a[1..], b[1..]);
        }
      }
    }
  }

  lemma SameStart(a: string, b: string, k: nat)
    requires k <= |a| && k <= |b| && a[..k] == b[..k]
    ensures k > 0 ==> a[0] == b[0]
  {
    if k > 0 {
      assert a[0] == a[..k][0] && b[0] == b[..k][0];
    }
  }

  lemma {:induction false} StringTotal(a: string, b: string)
    ensures StringLe(a, b) || StringLe(b, a)
    ensures StringLe(a, b) && StringLe(b, a) ==> a == b
  {
    if a != [] && b != [] {
      StringTotal(a[1..], b[1..]);
      assert a == [a[0]] + a[1..] && b == [b[0]] + b[1..];
    }
  }

  lemma {:induction false} StringChains(a: string, b: string, c: string)
    requires StringLe(a, b) && StringLe(b, c)
    ensures StringLe(a, c)
  {
    if a != [] && a[0] == b[0] && b[0] == c[0] {
      StringChains(a[1..], b[1..], c[1..]);
    }
  }

  lemma StringOrder()
    ensures IsOrder(StringLe)
  {
    forall a, b ensures StringLe(a, b) || StringLe(b, a) {
      StringTotal(a, b);
    }
    forall a, b, c | StringLe(a, b) && StringLe(b, c) ensures StringLe(a, c) {
      StringChains(a, b, c);
    }
  }
}
