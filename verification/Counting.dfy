/** How many members of a list have a property. */
module Counting {

  function NumberOf<T>(xs: seq<T>, p: T -> bool): nat {
    if xs == [] then 0 else NumberOf(xs[..|xs| - 1], p) + if p(xs[|xs| - 1]) then 1 else 0
  }

  lemma NumberAppend<T>(xs: seq<T>, x: T, p: T -> bool)
    ensures NumberOf(xs + [x], p) == NumberOf(xs, p) + if p(x) then 1 else 0
  {
    assert (xs + [x])[..|xs|] == xs;
  }

  lemma NumberOne<T>(x: T, p: T -> bool)
    ensures NumberOf([], p) == 0 && NumberOf([x], p) == if p(x) then 1 else 0
  {
    assert [x][..0] == [];
  }

  lemma {:induction false} NumberConcat<T>(xs: seq<T>, ys: seq<T>, p: T -> bool)
    ensures NumberOf(xs + ys, p) == NumberOf(xs, p) + NumberOf(ys, p)
  {
    if ys == [] {
      assert xs + ys == xs;
    } else {
      NumberConcat(xs, ys[..|ys| - 1], p);
      assert (xs + ys)[..|xs + ys| - 1] == xs + ys[..|ys| - 1];
    }
  }

  /** Properties that agree on the members have them equally often. */
  lemma {:induction false} SameNumber<T>(xs: seq<T>, p: T -> bool, q: T -> bool)
    requires forall x | x in xs :: p(x) == q(x)
    ensures NumberOf(xs, p) == NumberOf(xs, q)
  {
    if xs != [] {
      SameNumber(xs[..|xs| - 1], p, q);
      assert xs[|xs| - 1] in xs;
    }
  }

  /** Lists that have properties at the same places have them equally often. */
  lemma {:induction false} SamePlaces<T, U>(xs: seq<T>, ys: seq<U>, p: T -> bool, q: U -> bool)
    requires |xs| == |ys| && forall i | 0 <= i < |xs| :: p(xs[i]) == q(ys[i])
    ensures NumberOf(xs, p) == NumberOf(ys, q)
  {
    if xs != [] {
      SamePlaces(xs[..|xs| - 1], ys[..|xs| - 1], p, q);
    }
  }

  /** No member has the property exactly when the number is zero. */
  lemma {:induction false} NumberZero<T>(xs: seq<T>, p: T -> bool)
    ensures NumberOf(xs, p) == 0 <==> forall i | 0 <= i < |xs| :: !p(xs[i])
  {
    if xs != [] {
      NumberZero(xs[..|xs| - 1], p);
    }
  }

  /** Of two properties that exclude each other the numbers add up. */
  lemma {:induction false} NumberEither<T>(xs: seq<T>, p: T -> bool, q: T -> bool, either: T -> bool)
    requires forall x | x in xs :: !(p(x) && q(x)) && (either(x) <==> p(x) || q(x))
    ensures NumberOf(xs, either) == NumberOf(xs, p) + NumberOf(xs, q)
  {
    if xs != [] {
      NumberEither(xs[..|xs| - 1], p, q, either);
      assert xs[|xs| - 1] in xs;
    }
  }
}
