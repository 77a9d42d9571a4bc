/** Weighted tallies, and what grouping equal rows first does to them: nothing. */
module GroupBy {

  /** A counter with `n` more at `k`. */
  function Add<K>(m: map<K, nat>, k: K, n: nat): map<K, nat> {
    m[k := (if k in m then m[k] else 0) + n]
  }

  /** The rows whose group passes `p`, counted by `f`. */
  function Tally<G, K>(rows: seq<(G, nat)>, p: G -> bool, f: G -> K): map<K, nat> {
    if rows == [] then map[]
    else
      var m, last := Tally(rows[..|rows| - 1], p, f), rows[|rows| - 1];
      if p(last.0) then Add(m, f(last.0), last.1) else m
  }

  function Weight<G, K(==)>(row: (G, nat), p: G -> bool, f: G -> K, k: K): nat {
    if p(row.0) && f(row.0) == k then row.1 else 0
  }

  function Sum<G, K(==)>(rows: seq<(G, nat)>, p: G -> bool, f: G -> K, k: K): nat {
    if rows == [] then 0 else Sum(rows[..|rows| - 1], p, f, k) + Weight(rows[|rows| - 1], p, f, k)
  }

  /** The weight of the rows whose group has a property. */
  function WeightOf<G>(rows: seq<(G, nat)>, p: G -> bool): nat {
    if rows == [] then 0
    else WeightOf(rows[..|rows| - 1], p) + if p(rows[|rows| - 1].0) then rows[|rows| - 1].1 else 0
  }

  ghost predicate Occurs<G, K>(rows: seq<(G, nat)>, p: G -> bool, f: G -> K, k: K) {
    exists i :: 0 <= i < |rows| && p(rows[i].0) && f(rows[i].0) == k
  }

  lemma {:induction false} TallyAt<G, K>(rows: seq<(G, nat)>, p: G -> bool, f: G -> K, k: K)
    ensures k in Tally(rows, p, f) <==> Occurs(rows, p, f, k)
    ensures k in Tally(rows, p, f) ==> Tally(rows, p, f)[k] == Sum(rows, p, f, k)
    ensures k !in Tally(rows, p, f) ==> Sum(rows, p, f, k) == 0
  {
    if rows != [] {
      var init, last := rows[..|rows| - 1], rows[|rows| - 1];
      TallyAt(init, p, f, k);
      if Occurs(init, p, f, k) {
        var i :| 0 <= i < |init| && p(init[i].0) && f(init[i].0) == k;
        assert rows[i] == init[i];
      }
      if Occurs(rows, p, f, k) && !(p(last.0) && f(last.0) == k) {
        var i :| 0 <= i < |rows| && p(rows[i].0) && f(rows[i].0) == k;
        assert init[i] == rows[i];
      }
    }
  }

  /** Every item once. */
  function Ones<G>(items: seq<G>): (rows: seq<(G, nat)>)
    ensures |rows| == |items| && forall i | 0 <= i < |items| :: rows[i] == (items[i], 1)
  {
    seq(|items|, i requires 0 <= i < |items| => (items[i], 1))
  }

  function Count<G(==)>(items: seq<G>, g: G): nat {
    if items == [] then 0 else Count(items[..|items| - 1], g) + if items[|items| - 1] == g then 1 else 0
  }

  /** One row for each distinct item, with the number of its occurrences, in any order. */
  ghost predicate IsGroupBy<G>(rows: seq<(G, nat)>, items: seq<G>) {
    && (forall i, j | 0 <= i < j < |rows| :: rows[i].0 != rows[j].0)
    && (forall i | 0 <= i < |rows| :: rows[i].0 in items && rows[i].1 == Count(items, rows[i].0))
    && (forall g | g in items :: exists i :: 0 <= i < |rows| && rows[i].0 == g)
  }

  function Without<G(==)>(items: seq<G>, g: G): (rest: seq<G>)
    ensures forall x | x in rest :: x in items && x != g
    ensures forall x | x in items && x != g :: x in rest
  {
    if items == [] then []
    else Without(items[..|items| - 1], g) + if items[|items| - 1] == g then [] else [items[|items| - 1]]
  }

  lemma {:induction false} CountWithout<G>(items: seq<G>, g: G, h: G)
    requires g != h
    ensures Count(Without(items, g), h) == Count(items, h)
  {
    if items != [] {
      var init, last := items[..|items| - 1], items[|items| - 1];
      CountWithout(init, g, h);
      if last == g {
        assert Without(items, g) == Without(init, g);
      } else {
        assert Without(items, g)[..|Without(init, g)|] == Without(init, g);
      }
    }
  }

  lemma {:induction false} SumWithout<G, K>(items: seq<G>, g: G, p: G -> bool, f: G -> K, k: K)
    ensures Sum(Ones(items), p, f, k) ==
            Sum(Ones(Without(items, g)), p, f, k) + Weight((g, Count(items, g)), p, f, k)
  {
    if items != [] {
      var init, last := items[..|items| - 1], items[|items| - 1];
      SumWithout(init, g, p, f, k);
      assert Ones(items)[..|init|] == Ones(init);
      if last == g {
        assert Without(items, g) == Without(init, g);
      } else {
        assert Ones(Without(items, g))[..|Without(init, g)|] == Ones(Without(init, g));
      }
    }
  }

  /** Grouping does not change any sum. */
  lemma {:induction false} GroupSum<G, K>(rows: seq<(G, nat)>, items: seq<G>, p: G -> bool, f: G -> K, k: K)
    requires IsGroupBy(rows, items)
    ensures Sum(rows, p, f, k) == Sum(Ones(items), p, f, k)
  {
    if rows == [] {
      if items != [] {
        HasRow(rows, items);
      }
    } else {
      var init, last := rows[..|rows| - 1], rows[|rows| - 1];
      var rest := Without(items, last.0);
      SumWithout(items, last.0, p, f, k);
      WithoutGroup(rows, items);
      GroupSum(init, rest, p, f, k);
    }
  }

  lemma HasRow<G>(rows: seq<(G, nat)>, items: seq<G>)
    requires IsGroupBy(rows, items) && items != []
    ensures rows != []
  {
    assert items[0] in items;
  }

  lemma WithoutGroup<G>(rows: seq<(G, nat)>, items: seq<G>)
    requires IsGroupBy(rows, items) && rows != []
    ensures IsGroupBy(rows[..|rows| - 1], Without(items, rows[|rows| - 1].0))
  {
    var init, last := rows[..|rows| - 1], rows[|rows| - 1];
    var rest := Without(items, last.0);
    forall i | 0 <= i < |init| ensures init[i].0 in rest && init[i].1 == Count(rest, init[i].0) {
      assert rows[i].0 != last.0;
      CountWithout(items, last.0, init[i].0);
    }
    forall g | g in rest ensures exists i :: 0 <= i < |init| && init[i].0 == g {
      var i :| 0 <= i < |rows| && rows[i].0 == g;
      assert init[i] == rows[i];
    }
  }

  lemma GroupOccurs<G, K>(rows: seq<(G, nat)>, items: seq<G>, p: G -> bool, f: G -> K, k: K)
    requires IsGroupBy(rows, items)
    ensures Occurs(rows, p, f, k) <==> Occurs(Ones(items), p, f, k)
  {
    var ones := Ones(items);
    if Occurs(rows, p, f, k) {
      var i :| 0 <= i < |rows| && p(rows[i].0) && f(rows[i].0) == k;
      var j :| 0 <= j < |items| && items[j] == rows[i].0;
      assert ones[j].0 == items[j];
    }
    if Occurs(ones, p, f, k) {
      var j :| 0 <= j < |ones| && p(ones[j].0) && f(ones[j].0) == k;
      assert items[j] in items;
      var i :| 0 <= i < |rows| && rows[i].0 == items[j];
    }
  }

  /** Tallying the groups with their counts is tallying the items one by one, even when the tally
      merges groups. */
  lemma GroupTally<G, K>(rows: seq<(G, nat)>, items: seq<G>, p: G -> bool, f: G -> K)
    requires IsGroupBy(rows, items)
    ensures Tally(rows, p, f) == Tally(Ones(items), p, f)
  {
    var a, b := Tally(rows, p, f), Tally(Ones(items), p, f);
    forall k | k in a ensures k in b && a[k] == b[k] {
      SameAt(rows, items, p, f, k);
    }
    forall k | k in b ensures k in a {
      SameAt(rows, items, p, f, k);
    }
  }

  lemma SameAt<G, K>(rows: seq<(G, nat)>, items: seq<G>, p: G -> bool, f: G -> K, k: K)
    requires IsGroupBy(rows, items)
    ensures var a, b := Tally(rows, p, f), Tally(Ones(items), p, f);
            (k in a <==> k in b) && (k in a ==> a[k] == b[k])
  {
    TallyAt(rows, p, f, k);
    TallyAt(Ones(items), p, f, k);
    GroupSum(rows, items, p, f, k);
    GroupOccurs(rows, items, p, f, k);
  }

  ghost predicate Any<G>(rows: seq<(G, nat)>, p: G -> bool) {
    exists i :: 0 <= i < |rows| && p(rows[i].0)
  }

  lemma AnyAppend<G>(rows: seq<(G, nat)>, p: G -> bool)
    requires rows != []
    ensures Any(rows, p) <==> Any(rows[..|rows| - 1], p) || p(rows[|rows| - 1].0)
  {
    var init := rows[..|rows| - 1];
    if i :| 0 <= i < |init| && p(init[i].0) {
      assert p(rows[i].0);
    }
    if i :| 0 <= i < |rows| && p(rows[i].0) && !p(rows[|rows| - 1].0) {
      assert p(init[i].0);
    }
  }

  lemma GroupAny<G>(rows: seq<(G, nat)>, items: seq<G>, p: G -> bool)
    requires IsGroupBy(rows, items)
    ensures Any(rows, p) <==> Any(Ones(items), p)
  {
    var ones := Ones(items);
    if i :| 0 <= i < |rows| && p(rows[i].0) {
      var j :| 0 <= j < |items| && items[j] == rows[i].0;
      assert p(ones[j].0);
    }
    if j :| 0 <= j < |ones| && p(ones[j].0) {
      assert items[j] in items;
      var i :| 0 <= i < |rows| && rows[i].0 == items[j];
      assert p(rows[i].0);
    }
  }

  // ---------------------------------------------------------------------------
  // Totals
  // ---------------------------------------------------------------------------

  /** The sum of `w` over the values of a map. */
  ghost function Total<K, V>(m: map<K, V>, w: V -> nat): nat
    decreases |m|
  {
    if m == map[] then 0
    else
      var k :| k in m;
      w(m[k]) + Total(m - {k}, w)
  }

  /** Any key may be taken out first. */
  lemma {:induction false} TotalSplit<K, V>(m: map<K, V>, w: V -> nat, k: K)
    requires k in m
    ensures Total(m, w) == w(m[k]) + Total(m - {k}, w)
    decreases |m|
  {
    var j :| j in m && Total(m, w) == w(m[j]) + Total(m - {j}, w);
    if j != k {
      TotalSplit(m - {j}, w, k);
      TotalSplit(m - {k}, w, j);
      assert m - {j} - {k} == m - {k} - {j};
    }
  }

  lemma TotalUpdate<K, V>(m: map<K, V>, w: V -> nat, k: K, v: V)
    ensures Total(m[k := v], w) + (if k in m then w(m[k]) else 0) == Total(m, w) + w(v)
  {
    TotalSplit(m[k := v], w, k);
    if k in m {
      TotalSplit(m, w, k);
      assert m[k := v] - {k} == m - {k};
    } else {
      assert m[k := v] - {k} == m;
    }
  }
}
