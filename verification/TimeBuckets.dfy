/** Gathering per-second event counts into a few dozen display buckets. */
module TimeBuckets {

  import opened Sorting

  const MAX_DIGEST_BUCKETS := 60

  const DAY := 86400

  /** Events and alarms of one second of the day. */
  datatype Row = Row(sec: int, total: nat, alarms: nat)

  datatype Cell = Cell(total: nat, alarms: nat)

  /** A bucket; `start` and `end` are the seconds its label is made of. */
  datatype Bucket = Bucket(key: int, start: int, end: int, cell: Cell)

  /** Seconds before the first one belong to the next day. */
  function Unwrapped(sec: int, minSec: int): int {
    if sec >= minSec then sec else sec + DAY
  }

  function Span(minSec: int, maxSec: int): (span: nat)
    ensures minSec <= maxSec ==> span == maxSec - minSec
    ensures maxSec < minSec <= maxSec + DAY ==> span == maxSec + DAY - minSec
  {
    var last := if maxSec < minSec then maxSec + DAY else maxSec;
    if last - minSec > 0 then last - minSec else 0
  }

  function CeilDiv(n: int, d: int): int
    requires d > 0
  {
    -(-n / d)
  }

  /** A minute for half an hour, otherwise whole minutes so that the span is about sixty of them. */
  function Width(span: nat): (width: int)
    ensures width >= 60
  {
    if span <= 1800 then 60
    else
      var width := CeilDiv(span, 60 * MAX_DIGEST_BUCKETS) * 60;
      if width > 60 then width else 60
  }

  function KeyOf(sec: int, minSec: int, width: int): int
    requires width > 0
  {
    (Unwrapped(sec, minSec) - minSec) / width
  }

  // ---------------------------------------------------------------------------
  // Reference: sums over the rows of a bucket
  // ---------------------------------------------------------------------------

  function Weight(row: Row, alarms: bool): nat {
    if alarms then row.alarms else row.total
  }

  function Part(cell: Cell, alarms: bool): nat {
    if alarms then cell.alarms else cell.total
  }

  function SumAll(rows: seq<Row>, alarms: bool): nat {
    if rows == [] then 0 else SumAll(rows[..|rows| - 1], alarms) + Weight(rows[|rows| - 1], alarms)
  }

  function SumAt(rows: seq<Row>, minSec: int, width: int, key: int, alarms: bool): nat
    requires width > 0
  {
    if rows == [] then 0
    else
      var last := rows[|rows| - 1];
      SumAt(rows[..|rows| - 1], minSec, width, key, alarms)
        + if KeyOf(last.sec, minSec, width) == key then Weight(last, alarms) else 0
  }

  ghost predicate HasKey(rows: seq<Row>, minSec: int, width: int, key: int)
    requires width > 0
  {
    exists i :: 0 <= i < |rows| && KeyOf(rows[i].sec, minSec, width) == key
  }

  ghost predicate IsMerged(rows: seq<Row>, minSec: int, width: int, merged: map<int, Cell>)
    requires width > 0
  {
    forall key: int ::
      && (key in merged <==> HasKey(rows, minSec, width, key))
      && (if key in merged
          then merged[key] == Cell(SumAt(rows, minSec, width, key, false), SumAt(rows, minSec, width, key, true))
          else SumAt(rows, minSec, width, key, false) == 0 && SumAt(rows, minSec, width, key, true) == 0)
  }

  lemma MergeAppend(rows: seq<Row>, minSec: int, width: int, merged: map<int, Cell>, row: Row)
    requires width > 0 && IsMerged(rows, minSec, width, merged)
    ensures var key := KeyOf(row.sec, minSec, width);
            var cell := if key in merged then merged[key] else Cell(0, 0);
            IsMerged(rows + [row], minSec, width, merged[key := Cell(cell.total + row.total, cell.alarms + row.alarms)])
  {
    var longer := rows + [row];
    assert longer[..|rows|] == rows && longer[|rows|] == row;
    hide KeyOf;
    forall key: int
      ensures HasKey(longer, minSec, width, key) <==>
                HasKey(rows, minSec, width, key) || KeyOf(row.sec, minSec, width) == key
    {
      if i :| 0 <= i < |rows| && KeyOf(rows[i].sec, minSec, width) == key {
        assert longer[i] == rows[i];
      }
    }
    hide HasKey;
  }

  /** The keys of the table in the order they came, each once. */
  ghost predicate IsOrder(order: seq<int>, merged: map<int, Cell>) {
    && (forall key :: key in order <==> key in merged)
    && Distinct(order)
  }

  method Merge(rows: seq<Row>, minSec: int, width: int) returns (merged: map<int, Cell>, order: seq<int>)
    requires width > 0
    ensures IsMerged(rows, minSec, width, merged) && IsOrder(order, merged)
  {
    merged, order := map[], [];
    for i := 0 to |rows|
      invariant IsMerged(rows[..i], minSec, width, merged) && IsOrder(order, merged)
    {
      hide IsMerged;
      assert rows[..i + 1] == rows[..i] + [rows[i]];
      MergeAppend(rows[..i], minSec, width, merged, rows[i]);
      var t := if rows[i].sec >= minSec then rows[i].sec else rows[i].sec + DAY;
      var key := (t - minSec) / width;
      if key !in merged {
        order := order + [key];
      }
      var cell := if key in merged then merged[key] else Cell(0, 0);
      merged := merged[key := Cell(cell.total + rows[i].total, cell.alarms + rows[i].alarms)];
    }
    assert rows[..|rows|] == rows;
  }

  // ---------------------------------------------------------------------------
  // Sums over keys
  // ---------------------------------------------------------------------------

  /** The sums over the listed keys make up the sum over the rows. */
  function SumKeys(rows: seq<Row>, minSec: int, width: int, keys: seq<int>, alarms: bool): nat
    requires width > 0
  {
    if keys == [] then 0
    else SumKeys(rows, minSec, width, keys[..|keys| - 1], alarms) + SumAt(rows, minSec, width, keys[|keys| - 1], alarms)
  }

  lemma {:induction false} SumKeysAppend(rows: seq<Row>, row: Row, minSec: int, width: int, keys: seq<int>,
                                         alarms: bool)
    requires width > 0 && Increasing(keys)
    ensures SumKeys(rows + [row], minSec, width, keys, alarms) ==
            SumKeys(rows, minSec, width, keys, alarms)
            + if KeyOf(row.sec, minSec, width) in keys then Weight(row, alarms) else 0
  {
    if keys != [] {
      var init, last := keys[..|keys| - 1], keys[|keys| - 1];
      SumKeysAppend(rows, row, minSec, width, init, alarms);
      assert (rows + [row])[..|rows|] == rows;
      assert keys == init + [last] && last !in init;
      hide KeyOf, Increasing;
    }
  }

  lemma {:induction false} NoRows(minSec: int, width: int, keys: seq<int>, alarms: bool)
    requires width > 0
    ensures SumKeys([], minSec, width, keys, alarms) == 0
  {
    if keys != [] {
      NoRows(minSec, width, keys[..|keys| - 1], alarms);
    }
  }

  lemma {:induction false} KeysCoverRows(rows: seq<Row>, minSec: int, width: int, keys: seq<int>, alarms: bool)
    requires width > 0 && Increasing(keys)
    requires forall i | 0 <= i < |rows| :: KeyOf(rows[i].sec, minSec, width) in keys
    ensures SumKeys(rows, minSec, width, keys, alarms) == SumAll(rows, alarms)
  {
    if rows == [] {
      NoRows(minSec, width, keys, alarms);
    } else {
      var init, last := rows[..|rows| - 1], rows[|rows| - 1];
      assert rows == init + [last];
      KeysCoverRows(init, minSec, width, keys, alarms);
      SumKeysAppend(init, last, minSec, width, keys, alarms);
    }
  }

  // ---------------------------------------------------------------------------
  // The buckets
  // ---------------------------------------------------------------------------

  function SumBuckets(buckets: seq<Bucket>, alarms: bool): nat {
    if buckets == [] then 0
    else SumBuckets(buckets[..|buckets| - 1], alarms) + Part(buckets[|buckets| - 1].cell, alarms)
  }

  /** The label of bucket `key` starts from the first second rounded down to the bucket width. */
  function Label(minSec: int, width: int, key: int): int
    requires width > 0
  {
    minSec / width * width + key * width
  }

  function BucketOf(rows: seq<Row>, minSec: int, width: int, key: int): Bucket
    requires width > 0
  {
    Bucket(key, Label(minSec, width, key), Label(minSec, width, key + 1),
           Cell(SumAt(rows, minSec, width, key, false), SumAt(rows, minSec, width, key, true)))
  }

  ghost predicate AreBuckets(rows: seq<Row>, minSec: int, width: int, keys: seq<int>, buckets: seq<Bucket>)
    requires width > 0
  {
    |buckets| == |keys| && forall i | 0 <= i < |keys| :: buckets[i] == BucketOf(rows, minSec, width, keys[i])
  }

  lemma {:induction false} BucketsSum(rows: seq<Row>, minSec: int, width: int, keys: seq<int>,
                                      buckets: seq<Bucket>, alarms: bool)
    requires width > 0 && AreBuckets(rows, minSec, width, keys, buckets)
    ensures SumBuckets(buckets, alarms) == SumKeys(rows, minSec, width, keys, alarms)
  {
    if keys != [] {
      BucketsSum(rows, minSec, width, keys[..|keys| - 1], buckets[..|keys| - 1], alarms);
      assert buckets[|keys| - 1] == BucketOf(rows, minSec, width, keys[|keys| - 1]);
    }
  }

  method Emit(ghost rows: seq<Row>, minSec: int, width: int, keys: seq<int>, merged: map<int, Cell>)
    returns (buckets: seq<Bucket>)
    requires width > 0 && IsMerged(rows, minSec, width, merged)
    requires forall key | key in keys :: key in merged
    ensures AreBuckets(rows, minSec, width, keys, buckets)
  {
    buckets := [];
    var base := minSec / width * width;
    for i := 0 to |keys|
      invariant AreBuckets(rows, minSec, width, keys[..i], buckets)
    {
      assert keys[..i + 1] == keys[..i] + [keys[i]];
      assert keys[i] in keys && (keys[i] + 1) * width == keys[i] * width + width;
      hide SumAt, HasKey;
      var start := base + keys[i] * width;
      buckets := buckets + [Bucket(keys[i], start, start + width, merged[keys[i]])];
    }
    assert keys[..|keys|] == keys;
  }

  /** All rows fall into the span. */
  ghost predicate InSpan(rows: seq<Row>, minSec: int, maxSec: int) {
    forall i | 0 <= i < |rows| :: 0 <= Unwrapped(rows[i].sec, minSec) - minSec <= Span(minSec, maxSec)
  }

  /** The span is a positive whole number of hours, and no bucket of it is empty. */
  ghost predicate FillsWholeHours(rows: seq<Row>, minSec: int, maxSec: int) {
    var span := Span(minSec, maxSec);
    span > 0 && span % 3600 == 0 && forall key | 0 <= key <= 60 :: HasKey(rows, minSec, Width(span), key)
  }

  lemma MulSpread(a: int, b: int, c: int)
    requires a <= b && c >= 0
    ensures a * c <= b * c
  {
  }

  lemma DivBounds(n: int, d: int)
    requires d > 0
    ensures n / d * d <= n < (n / d + 1) * d
  {
  }

  /** Above half an hour the width times sixty reaches the span, and is the span only for whole hours. */
  lemma WidthCovers(span: nat)
    ensures span <= 60 * Width(span)
    ensures span == 60 * Width(span) <==> span > 0 && span % 3600 == 0
  {
    if span > 1800 {
      var hours := CeilDiv(span, 3600);
      DivBounds(0 - span, 3600);
      assert 3600 * hours - 3600 < span <= 3600 * hours;
      assert hours >= 1 && Width(span) == 60 * hours;
      if span % 3600 == 0 {
        WholeHours(span, hours);
      }
    }
  }

  /** The width is the least positive number of whole minutes of which sixty cover the span. */
  lemma WidthIsLeast(span: nat, other: int)
    ensures Width(span) % 60 == 0 && span <= 60 * Width(span)
    ensures other > 0 && other % 60 == 0 && span <= 60 * other ==> Width(span) <= other
  {
    WidthCovers(span);
    if span > 1800 {
      var hours := CeilDiv(span, 3600);
      DivBounds(0 - span, 3600);
      assert hours >= 1 && Width(span) == 60 * hours;
      assert other % 60 == 0 ==> other == other / 60 * 60;
    }
  }

  lemma WholeHours(span: int, hours: int)
    requires 3600 * hours - 3600 < span <= 3600 * hours && span % 3600 == 0
    ensures span == 3600 * hours
  {
    assert span == span / 3600 * 3600;
  }

  lemma KeyBound(offset: int, span: nat)
    requires 0 <= offset <= span
    ensures 0 <= offset / Width(span) <= 60
    ensures offset / Width(span) == 60 ==> span > 0 && span % 3600 == 0
  {
    var width := Width(span);
    WidthCovers(span);
    DivBounds(offset, width);
    var key := offset / width;
    if key >= 61 {
      MulSpread(61, key, width);
      assert false;
    }
    if key < 0 {
      MulSpread(key + 1, 0, width);
      assert false;
    }
  }

  /** Increasing numbers from 0 to 60 are at most 61, and 61 only when none is missing. */
  lemma {:induction false} AtLeastIndex(keys: seq<int>, i: nat)
    requires Increasing(keys) && i < |keys| && keys[0] >= 0
    ensures keys[i] >= i
  {
    if i > 0 {
      AtLeastIndex(keys, i - 1);
    }
  }

  lemma {:induction false} AtMostIndex(keys: seq<int>, i: nat, top: int)
    requires Increasing(keys) && i < |keys| && keys[|keys| - 1] <= top
    ensures keys[i] <= top - (|keys| - 1 - i)
    decreases |keys| - i
  {
    if i < |keys| - 1 {
      AtMostIndex(keys, i + 1, top);
    }
  }

  lemma AtMost61(keys: seq<int>)
    requires Increasing(keys) && forall i | 0 <= i < |keys| :: 0 <= keys[i] <= 60
    ensures |keys| <= 61
    ensures |keys| == 61 ==> forall key | 0 <= key <= 60 :: key in keys
  {
    if keys != [] {
      AtLeastIndex(keys, |keys| - 1);
      if |keys| == 61 {
        forall key | 0 <= key <= 60 ensures key in keys {
          AtLeastIndex(keys, key);
          AtMostIndex(keys, key, 60);
          assert keys[key] == key;
        }
      }
    }
  }

  /** Every number from 0 up to 60 among distinct keys makes at least 61 of them. */
  lemma {:induction false} AllPresent(keys: seq<int>, n: nat)
    requires Increasing(keys) && forall key | 0 <= key < n :: key in keys
    requires forall i | 0 <= i < |keys| :: keys[i] >= 0
    ensures |keys| >= n && forall i | 0 <= i < n :: keys[i] == i
  {
    if n > 0 {
      AllPresent(keys, n - 1);
      assert n - 1 in keys;
      var i :| 0 <= i < |keys| && keys[i] == n - 1;
      AtLeastIndex(keys, i);
      assert forall j | 0 <= j < n - 1 :: keys[j] != n - 1;
    }
  }

  ghost predicate AreKeys(rows: seq<Row>, minSec: int, width: int, keys: seq<int>)
    requires width > 0
  {
    Increasing(keys) && forall key: int :: key in keys <==> HasKey(rows, minSec, width, key)
  }

  lemma KeysBounded(rows: seq<Row>, minSec: int, maxSec: int, keys: seq<int>)
    requires InSpan(rows, minSec, maxSec) && AreKeys(rows, minSec, Width(Span(minSec, maxSec)), keys)
    ensures forall i | 0 <= i < |keys| :: 0 <= keys[i] <= 60
    ensures 60 in keys ==> Span(minSec, maxSec) > 0 && Span(minSec, maxSec) % 3600 == 0
  {
    var span := Span(minSec, maxSec);
    hide Width, Span;
    forall i | 0 <= i < |keys|
      ensures 0 <= keys[i] <= 60
      ensures keys[i] == 60 ==> span > 0 && span % 3600 == 0
    {
      assert keys[i] in keys;
      var r :| 0 <= r < |rows| && KeyOf(rows[r].sec, minSec, Width(span)) == keys[i];
      KeyBound(Unwrapped(rows[r].sec, minSec) - minSec, span);
    }
  }

  /** At most 61 buckets come out, and more than the promised 60 exactly for a span of whole hours without an
      empty bucket. */
  lemma BucketCount(rows: seq<Row>, minSec: int, maxSec: int, keys: seq<int>)
    requires InSpan(rows, minSec, maxSec) && AreKeys(rows, minSec, Width(Span(minSec, maxSec)), keys)
    ensures |keys| <= MAX_DIGEST_BUCKETS + 1
    ensures |keys| > MAX_DIGEST_BUCKETS <==> FillsWholeHours(rows, minSec, maxSec)
  {
    KeysBounded(rows, minSec, maxSec, keys);
    hide Width, Span, HasKey;
    AtMost61(keys);
    if FillsWholeHours(rows, minSec, maxSec) {
      AllPresent(keys, 61);
    }
  }

  /** `_time_buckets`. */
  method TimeBuckets(rows: seq<Row>, minSec: int, maxSec: int)
    returns (buckets: seq<Bucket>, width: int, ghost keys: seq<int>)
    ensures width == if rows == [] then 60 else Width(Span(minSec, maxSec))
    ensures AreKeys(rows, minSec, width, keys) && AreBuckets(rows, minSec, width, keys, buckets)
    ensures SumBuckets(buckets, false) == SumAll(rows, false) && SumBuckets(buckets, true) == SumAll(rows, true)
    ensures InSpan(rows, minSec, maxSec) ==>
              && |buckets| <= MAX_DIGEST_BUCKETS + 1
              && (|buckets| > MAX_DIGEST_BUCKETS <==> FillsWholeHours(rows, minSec, maxSec))
  {
    if rows == [] {
      assert !HasKey(rows, minSec, Width(Span(minSec, maxSec)), 0);
      return [], 60, [];
    }
    width := Width(Span(minSec, maxSec));
    var merged, order := Merge(rows, minSec, width);
    SortIncreasing(order);
    var sorted := Sort(order, IntLe());
    keys := sorted;
    assert AreKeys(rows, minSec, width, keys);
    buckets := Emit(rows, minSec, width, sorted, merged);
    forall i | 0 <= i < |rows| ensures KeyOf(rows[i].sec, minSec, width) in keys {
      assert HasKey(rows, minSec, width, KeyOf(rows[i].sec, minSec, width));
    }
    hide *;
    assert Increasing(keys) by { FromKeys(rows, minSec, width, keys); }
    KeysCoverRows(rows, minSec, width, keys, false);
    KeysCoverRows(rows, minSec, width, keys, true);
    BucketsSum(rows, minSec, width, keys, buckets, false);
    BucketsSum(rows, minSec, width, keys, buckets, true);
    assert |buckets| == |keys| by { OneEach(rows, minSec, width, keys, buckets); }
    if InSpan(rows, minSec, maxSec) {
      BucketCount(rows, minSec, maxSec, keys);
    }
  }

  lemma FromKeys(rows: seq<Row>, minSec: int, width: int, keys: seq<int>)
    requires width > 0 && AreKeys(rows, minSec, width, keys)
    ensures Increasing(keys)
  {
  }

  lemma OneEach(rows: seq<Row>, minSec: int, width: int, keys: seq<int>, buckets: seq<Bucket>)
    requires width > 0 && AreBuckets(rows, minSec, width, keys, buckets)
    ensures |buckets| == |keys|
  {
  }

  /** Seconds between the first and the last one, over midnight when the last comes before the first, are in
      the span. */
  lemma BetweenInSpan(rows: seq<Row>, minSec: int, maxSec: int)
    requires 0 <= minSec < DAY && 0 <= maxSec < DAY
    requires forall i | 0 <= i < |rows| :: 0 <= rows[i].sec < DAY &&
               if minSec <= maxSec then minSec <= rows[i].sec <= maxSec
               else rows[i].sec >= minSec || rows[i].sec <= maxSec
    ensures InSpan(rows, minSec, maxSec)
  {
  }

  /** One event a minute for an hour, both ends included, makes 61 buckets. */
  lemma SixtyOneBuckets()
    ensures var rows := seq(61, i requires 0 <= i < 61 => Row(60 * i, 1, 0));
            InSpan(rows, 0, 3600) && FillsWholeHours(rows, 0, 3600)
  {
    var rows := seq(61, i requires 0 <= i < 61 => Row(60 * i, 1, 0));
    assert CeilDiv(3600, 3600) == 1 && Width(3600) == 60;
    forall key | 0 <= key <= 60 ensures HasKey(rows, 0, 60, key) {
      assert rows[key].sec == 60 * key && KeyOf(rows[key].sec, 0, 60) == key;
    }
  }

  /** A row lies in the stretch of its bucket counted from the first second; the label starts earlier, by what
      the first second is past a multiple of the width, so the row is inside its labelled stretch exactly when
      the two offsets together stay below the width. */
  lemma LabelShift(sec: int, minSec: int, width: int)
    requires width > 0
    ensures var t, key := Unwrapped(sec, minSec), KeyOf(sec, minSec, width);
            && minSec + key * width <= t < minSec + (key + 1) * width
            && minSec + key * width - Label(minSec, width, key) == minSec % width
            && (Label(minSec, width, key) <= t < Label(minSec, width, key + 1) <==>
                  (t - minSec) % width + minSec % width < width)
  {
    var t := Unwrapped(sec, minSec);
    var key := (t - minSec) / width;
    DivBounds(t - minSec, width);
    assert (key + 1) * width == key * width + width;
    assert t - minSec == key * width + (t - minSec) % width;
    assert minSec == minSec / width * width + minSec % width;
  }
}
