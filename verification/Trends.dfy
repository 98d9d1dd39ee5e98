/** Trend charts: rows counted, or amounts added up, per calendar bucket. Amounts are whole cents. */
module Trends {
  import opened Text
  import opened TimeSeries

  datatype Item = Item(at: int, amount: int)

  datatype Point = Point(period: string, value: int)

  function Total(items: seq<Item>): int {
    if items == [] then 0 else Total(items[..|items|-1]) + items[|items|-1].amount
  }

  /** The amounts of the items lying in one bucket. */
  function TotalIn(items: seq<Item>, b: Bucket): int {
    if items == [] then 0
    else TotalIn(items[..|items|-1], b) + if IsInBucket(items[|items|-1].at, b) then items[|items|-1].amount else 0
  }

  /** The amounts of the items lying in the first n calendar units from number `first` on. */
  function TotalCovered(items: seq<Item>, first: int, n: nat, g: Granularity): int {
    if items == [] then 0
    else
      var last := items[|items|-1];
      TotalCovered(items[..|items|-1], first, n, g) + if Index(last.at, g) < first + n then last.amount else 0
  }

  function Sum(points: seq<Point>): int {
    if points == [] then 0 else Sum(points[..|points|-1]) + points[|points|-1].value
  }

  function Get(m: map<string, int>, key: string): int { if key in m then m[key] else 0 }

  /** The amounts of the items with one key. */
  function TotalByKey(items: seq<Item>, g: Granularity, key: string): int {
    if items == [] then 0
    else
      var last := items[|items|-1];
      TotalByKey(items[..|items|-1], g, key) + if BucketKey(last.at, g) == key then last.amount else 0
  }

  /** The rows the query fetched lie in the range. */
  ghost predicate Fetched(items: seq<Item>, from: int, to: int) {
    forall i :: 0 <= i < |items| ==> from <= items[i].at <= to
  }

  /** How many buckets have a key. */
  function KeyCount(buckets: seq<Bucket>, key: string): nat {
    if buckets == [] then 0
    else KeyCount(buckets[..|buckets|-1], key) + if buckets[|buckets|-1].key == key then 1 else 0
  }

  /** Every item counted once for each bucket with its key. */
  function CountedTotal(items: seq<Item>, buckets: seq<Bucket>, g: Granularity): int {
    if items == [] then 0
    else
      var last := items[|items|-1];
      CountedTotal(items[..|items|-1], buckets, g) + last.amount * KeyCount(buckets, BucketKey(last.at, g))
  }

  /** The points of a chart: for each bucket its key and the amounts of the items with that key. */
  ghost predicate IsChart(points: seq<Point>, items: seq<Item>, buckets: seq<Bucket>, g: Granularity) {
    && |points| == |buckets|
    && forall k :: 0 <= k < |points| ==> points[k] == Point(buckets[k].key, TotalByKey(items, g, buckets[k].key))
  }

  /** The loops of `ticketTrend`, `customerGrowth`, `organizationGrowth` (amount 1) and `getRevenueTrend`. Every point
      has the rows with its key; where nothing in the range is mirrored, these are the rows in its bucket. */
  method Trend(items: seq<Item>, from: int, to: int, g: Granularity) returns (points: seq<Point>)
    requires Fetched(items, from, to) && from <= to
    ensures |points| == BucketCount(from, to, g) == |Buckets(from, to, g)|
    ensures IsChart(points, items, Buckets(from, to, g), g)
    ensures Sum(points) == CountedTotal(items, Buckets(from, to, g), g)
    ensures Unmirrored(from, to, g) ==>
              forall k :: 0 <= k < |points| ==> points[k].value == TotalIn(items, Buckets(from, to, g)[k])
  {
    hide Index, BucketKey, Unmirrored, Buckets, BucketAt, BucketCount, IsInBucket;
    var buckets := BuildBuckets(from, to, g);
    BucketsShape(from, to, g);
    var counts := CountByKey(items, buckets, g);
    points := [];
    for k := 0 to |buckets|
      invariant |points| == k
      invariant forall j :: 0 <= j < k ==> points[j] == Point(buckets[j].key, TotalByKey(items, g, buckets[j].key))
    {
      points := points + [Point(buckets[k].key, Get(counts, buckets[k].key))];
    }
    SumCountsKeys(points, items, buckets, g);
    if Unmirrored(from, to, g) {
      forall k | 0 <= k < |points|
        ensures points[k].value == TotalIn(items, buckets[k])
      {
        KeyTotalIsBucketTotal(items, from, to, g, k);
      }
    }
  }

  method CountByKey(items: seq<Item>, buckets: seq<Bucket>, g: Granularity) returns (counts: map<string, int>)
    ensures forall key :: Get(counts, key) == TotalByKey(items, g, key)
  {
    hide BucketKey;
    counts := map[];
    for k := 0 to |buckets|
      invariant forall key :: Get(counts, key) == 0
    {
      ghost var before := counts;
      counts := counts[buckets[k].key := 0];
      assert forall key :: Get(counts, key) == if key == buckets[k].key then 0 else Get(before, key);
    }
    for i := 0 to |items|
      invariant forall key :: Get(counts, key) == TotalByKey(items[..i], g, key)
    {
      assert items[..i + 1][..i] == items[..i];
      var key := BucketKey(items[i].at, g);
      counts := counts[key := Get(counts, key) + items[i].amount];
    }
    assert items[..|items|] == items;
  }

  /** Where nothing in the range is mirrored, counting through string keys gives the same as asking of each row
      whether it lies in the bucket. */
  lemma {:induction false} KeyTotalIsBucketTotal(items: seq<Item>, from: int, to: int, g: Granularity, k: nat)
    requires Fetched(items, from, to) && from <= to && Unmirrored(from, to, g)
    requires k < BucketCount(from, to, g) == |Buckets(from, to, g)|
    ensures TotalByKey(items, g, Buckets(from, to, g)[k].key) == TotalIn(items, Buckets(from, to, g)[k])
  {
    hide Index, BucketKey, Unmirrored, Buckets, BucketCount, IsInBucket;
    if items != [] {
      KeyTotalIsBucketTotal(items[..|items|-1], from, to, g, k);
      KeysTellBuckets(from, to, g);
    }
  }

  /** Every chart of the range is right: counting by key counts each bucket, whatever was fetched. */
  ghost predicate ChartsAreRight(from: int, to: int, g: Granularity)
    requires |Buckets(from, to, g)| == BucketCount(from, to, g)
  {
    forall items, k :: Fetched(items, from, to) && 0 <= k < BucketCount(from, to, g) ==>
                         TotalByKey(items, g, Buckets(from, to, g)[k].key) == TotalIn(items, Buckets(from, to, g)[k])
  }

  /** Charts over a range are right for everything that can be fetched exactly when nothing in it is mirrored. */
  lemma RightUnlessMirrored(from: int, to: int, g: Granularity)
    requires from <= to
    ensures |Buckets(from, to, g)| == BucketCount(from, to, g)
    ensures ChartsAreRight(from, to, g) <==> Unmirrored(from, to, g)
  {
    hide Index, BucketKey, Unmirrored, Buckets, BucketCount, IsInBucket;
    KeysTellBuckets(from, to, g);
    if Unmirrored(from, to, g) {
      forall items, k | Fetched(items, from, to) && 0 <= k < BucketCount(from, to, g)
        ensures TotalByKey(items, g, Buckets(from, to, g)[k].key) == TotalIn(items, Buckets(from, to, g)[k])
      {
        KeyTotalIsBucketTotal(items, from, to, g, k);
      }
    } else {
      var t, k :| from <= t <= to && 0 <= k < BucketCount(from, to, g)
                  && !(IsInBucket(t, Buckets(from, to, g)[k]) <==> BucketKey(t, g) == Buckets(from, to, g)[k].key);
      OneRow(t, g, Buckets(from, to, g)[k]);
      assert Fetched([Item(t, 1)], from, to);
    }
  }

  lemma OneRow(t: int, g: Granularity, b: Bucket)
    ensures TotalByKey([Item(t, 1)], g, b.key) == if BucketKey(t, g) == b.key then 1 else 0
    ensures TotalIn([Item(t, 1)], b) == if IsInBucket(t, b) then 1 else 0
  {
    hide BucketKey, IsInBucket;
    assert [Item(t, 1)][..0] == [];
  }

  // ----- What the points add up to -----

  /** The totals of the keys of the buckets, one after the other. */
  function KeyTotals(items: seq<Item>, buckets: seq<Bucket>, g: Granularity): int {
    if buckets == [] then 0
    else KeyTotals(items, buckets[..|buckets|-1], g) + TotalByKey(items, g, buckets[|buckets|-1].key)
  }

  lemma {:induction false} SumIsKeyTotals(points: seq<Point>, items: seq<Item>, buckets: seq<Bucket>, g: Granularity)
    requires IsChart(points, items, buckets, g)
    ensures Sum(points) == KeyTotals(items, buckets, g)
    decreases |points|
  {
    hide TotalByKey;
    if points != [] { SumIsKeyTotals(points[..|points|-1], items, buckets[..|buckets|-1], g); }
  }

  lemma OneMoreWithKey(items: seq<Item>, item: Item, g: Granularity, key: string)
    ensures TotalByKey(items + [item], g, key)
         == TotalByKey(items, g, key) + if BucketKey(item.at, g) == key then item.amount else 0
  {
    hide BucketKey;
    assert (items + [item])[..|items|] == items;
  }

  lemma Distribute(amount: int, n: nat, hit: bool)
    ensures amount * (n + if hit then 1 else 0) == amount * n + if hit then amount else 0
  {
  }

  /** One more item adds its amount once for each bucket with its key. */
  lemma {:induction false} AddItem(items: seq<Item>, item: Item, buckets: seq<Bucket>, g: Granularity)
    ensures KeyTotals(items + [item], buckets, g)
         == KeyTotals(items, buckets, g) + item.amount * KeyCount(buckets, BucketKey(item.at, g))
    decreases |buckets|
  {
    hide BucketKey;
    if buckets != [] {
      var front, last := buckets[..|buckets|-1], buckets[|buckets|-1];
      AddItem(items, item, front, g);
      OneMoreWithKey(items, item, g, last.key);
      hide TotalByKey;
      Distribute(item.amount, KeyCount(front, BucketKey(item.at, g)), last.key == BucketKey(item.at, g));
    }
  }

  lemma {:induction false} NoItems(buckets: seq<Bucket>, g: Granularity)
    ensures KeyTotals([], buckets, g) == 0
  {
    if buckets != [] { NoItems(buckets[..|buckets|-1], g); }
  }

  lemma {:induction false} KeyTotalsAreCounted(items: seq<Item>, buckets: seq<Bucket>, g: Granularity)
    ensures KeyTotals(items, buckets, g) == CountedTotal(items, buckets, g)
    decreases |items|
  {
    hide BucketKey, KeyTotals, KeyCount;
    if items == [] {
      NoItems(buckets, g);
    } else {
      var front, last := items[..|items|-1], items[|items|-1];
      KeyTotalsAreCounted(front, buckets, g);
      AddItem(front, last, buckets, g);
      assert items == front + [last];
    }
  }

  /** For all items and buckets, the points of a chart add up to the amounts, each counted once for every bucket that
      has the item's key. */
  lemma SumCountsKeys(points: seq<Point>, items: seq<Item>, buckets: seq<Bucket>, g: Granularity)
    requires IsChart(points, items, buckets, g)
    ensures Sum(points) == CountedTotal(items, buckets, g)
  {
    SumIsKeyTotals(points, items, buckets, g);
    KeyTotalsAreCounted(items, buckets, g);
  }

  // ----- How often a row is counted -----

  lemma {:induction false} KeyNowhere(buckets: seq<Bucket>, key: string)
    requires forall k :: 0 <= k < |buckets| ==> buckets[k].key != key
    ensures KeyCount(buckets, key) == 0
  {
    if buckets != [] { KeyNowhere(buckets[..|buckets|-1], key); }
  }

  lemma {:induction false} KeyOnce(buckets: seq<Bucket>, key: string, k: nat)
    requires k < |buckets| && forall j :: 0 <= j < |buckets| ==> (buckets[j].key == key <==> j == k)
    ensures KeyCount(buckets, key) == 1
  {
    var front := buckets[..|buckets|-1];
    if k < |front| {
      assert front[k] == buckets[k];
      KeyOnce(front, key, k);
    } else {
      KeyNowhere(front, key);
    }
  }

  /** How many buckets of the chart have the key of a unit. */
  function Copies(from: int, to: int, g: Granularity, i: int): nat {
    KeyCount(Buckets(from, to, g), BucketKey(Start(i, g), g))
  }

  /** A row is counted once for its own bucket, unless that lies behind the cap, and once more if a bucket of the chart
      is mirrored to it: never, once or twice. */
  lemma CopiesOf(from: int, to: int, g: Granularity, i: int)
    requires Index(from, g) <= i
    ensures var first, n := Index(from, g), BucketCount(from, to, g);
            Copies(from, to, g, i) == (if i < first + n then 1 else 0)
                                      + if exists j :: first <= j < first + n && Mirrored(i, j, g) then 1 else 0
  {
    hide Index, BucketKey, Start, Mirrored, Buckets, BucketCount;
    BucketsShape(from, to, g);
    var b, first, key := Buckets(from, to, g), Index(from, g), BucketKey(Start(i, g), g);
    forall k | 0 <= k < |b|
      ensures b[k].key == key <==> first + k == i || Mirrored(i, first + k, g)
    {
      KeysEqual(i, first + k, g);
    }
    if j :| first <= j < first + |b| && Mirrored(i, j, g) {
      forall k | 0 <= k < |b|
        ensures b[k].key == key <==> k == i - first || k == j - first
      {
        assert b[k].key == key <==> first + k == i || Mirrored(i, first + k, g);
        if Mirrored(i, first + k, g) { OneMirror(i, first + k, j, g); }
      }
      NotOwnMirror(i, g);
      if i < first + |b| {
        TwoPlaces(b, key, i - first, j - first);
      } else {
        KeyOnce(b, key, j - first);
      }
    } else if i < first + |b| {
      KeyOnce(b, key, i - first);
    } else {
      KeyNowhere(b, key);
    }
  }

  lemma {:induction false} TwoPlaces(buckets: seq<Bucket>, key: string, j: nat, k: nat)
    requires j < |buckets| && k < |buckets| && j != k
    requires forall m :: 0 <= m < |buckets| ==> (buckets[m].key == key <==> m == j || m == k)
    ensures KeyCount(buckets, key) == 2
    decreases |buckets|
  {
    var front := buckets[..|buckets|-1];
    if j < |front| && k < |front| {
      TwoPlaces(front, key, j, k);
    } else {
      KeyOnce(front, key, if j < k then j else k);
    }
  }

  // ----- Conservation -----

  /** Every chart of the range adds up to everything that was fetched for it. */
  ghost predicate AddsUp(from: int, to: int, g: Granularity) {
    forall items, points :: Fetched(items, from, to) && IsChart(points, items, Buckets(from, to, g), g)
                            ==> Sum(points) == Total(items)
  }

  /** Every unit of the range shares its key with exactly one bucket of the chart. */
  ghost predicate EachUnitOnce(from: int, to: int, g: Granularity) {
    forall i :: Index(from, g) <= i <= Index(to, g) ==> Copies(from, to, g, i) == 1
  }

  lemma CopiesOfItem(from: int, to: int, g: Granularity, t: int)
    ensures KeyCount(Buckets(from, to, g), BucketKey(t, g)) == Copies(from, to, g, Index(t, g))
  {
    hide Index, BucketKey, Start, Buckets, KeyCount;
    KeyIsIndexed(t, g);
  }

  lemma {:induction false} CountedOnce(items: seq<Item>, from: int, to: int, g: Granularity)
    requires Fetched(items, from, to) && EachUnitOnce(from, to, g)
    ensures CountedTotal(items, Buckets(from, to, g), g) == Total(items)
    decreases |items|
  {
    hide Index, BucketKey, Buckets, KeyCount, Copies;
    if items != [] {
      var front, last := items[..|items|-1], items[|items|-1];
      CountedOnce(front, from, to, g);
      CopiesOfItem(from, to, g, last.at);
      IndexGrows(from, last.at, g);
      IndexGrows(last.at, to, g);
    }
  }

  function ChartOf(items: seq<Item>, buckets: seq<Bucket>, g: Granularity): (points: seq<Point>)
    ensures IsChart(points, items, buckets, g)
  {
    seq(|buckets|, k requires 0 <= k < |buckets| => Point(buckets[k].key, TotalByKey(items, g, buckets[k].key)))
  }

  /** For every range, capped or not: the points of its charts add up to everything fetched, whatever that is, exactly
      when every unit of the range shares its key with exactly one bucket. */
  lemma CountsAreConserved(from: int, to: int, g: Granularity)
    requires from <= to
    ensures AddsUp(from, to, g) <==> EachUnitOnce(from, to, g)
  {
    hide Index, BucketKey, Buckets, KeyCount, Copies, IsChart, Sum, Total, CountedTotal;
    if EachUnitOnce(from, to, g) {
      forall items, points | Fetched(items, from, to) && IsChart(points, items, Buckets(from, to, g), g)
        ensures Sum(points) == Total(items)
      {
        SumCountsKeys(points, items, Buckets(from, to, g), g);
        CountedOnce(items, from, to, g);
      }
    }
    if AddsUp(from, to, g) {
      forall i | Index(from, g) <= i <= Index(to, g)
        ensures Copies(from, to, g, i) == 1
      {
        var t := TimeInUnit(from, to, g, i);
        var items := [Item(t, 1)];
        var points := ChartOf(items, Buckets(from, to, g), g);
        assert Fetched(items, from, to);
        SumCountsKeys(points, items, Buckets(from, to, g), g);
        OneItem(t, Buckets(from, to, g), g);
        CopiesOfItem(from, to, g, t);
      }
    }
  }

  lemma OneItem(t: int, buckets: seq<Bucket>, g: Granularity)
    ensures Total([Item(t, 1)]) == 1
    ensures CountedTotal([Item(t, 1)], buckets, g) == KeyCount(buckets, BucketKey(t, g))
  {
    hide BucketKey, KeyCount;
    assert [Item(t, 1)][..0] == [];
  }

  /** Up to 4000 calendar units, the points of a chart add up to everything fetched, whatever that is, exactly when the
      range has no two buckets with the same key, which its first and last unit tell. */
  lemma NothingIsLost(from: int, to: int, g: Granularity)
    requires from <= to && Index(to, g) - Index(from, g) < 4000
    ensures AddsUp(from, to, g) <==> !HasMirror(Index(from, g), Index(to, g), g)
  {
    hide Index, AddsUp, HasMirror, EachUnitOnce, Unmirrored;
    CountsAreConserved(from, to, g);
    UnmirroredRange(from, to, g);
    OnceUnlessMirrored(from, to, g);
  }

  /** None of the first n units is mirrored to unit i. */
  ghost predicate Clear(i: int, first: int, n: nat, g: Granularity) {
    forall j :: first <= j < first + n ==> !Mirrored(i, j, g)
  }

  lemma ClearIsOnce(from: int, to: int, g: Granularity, i: int)
    requires Index(from, g) <= i < Index(from, g) + BucketCount(from, to, g)
    ensures Copies(from, to, g, i) == 1 <==> Clear(i, Index(from, g), BucketCount(from, to, g), g)
  {
    hide Index, Mirrored, BucketCount, Copies;
    CopiesOf(from, to, g, i);
  }

  lemma ClearIsUnmirrored(first: int, last: int, n: nat, g: Granularity)
    ensures (forall i :: first <= i <= last ==> Clear(i, first, n, g)) <==> NoneMirrored(first, last, n, g)
  {
    hide Mirrored;
    if forall i :: first <= i <= last ==> Clear(i, first, n, g) {
      forall i, j | first <= i <= last && first <= j < first + n
        ensures !Mirrored(i, j, g)
      {
        assert Clear(i, first, n, g);
      }
    }
  }

  /** Up to the cap every unit has a bucket of its own, so a second one is what can go wrong. */
  lemma OnceUnlessMirrored(from: int, to: int, g: Granularity)
    requires from <= to && Index(to, g) - Index(from, g) < 4000
    ensures EachUnitOnce(from, to, g) <==> Unmirrored(from, to, g)
  {
    hide Index, Copies, Clear, NoneMirrored;
    IndexGrows(from, to, g);
    var first, last, n := Index(from, g), Index(to, g), BucketCount(from, to, g);
    assert n == last - first + 1;
    ClearIsUnmirrored(first, last, n, g);
    forall i | first <= i <= last
      ensures Copies(from, to, g, i) == 1 <==> Clear(i, first, n, g)
    {
      ClearIsOnce(from, to, g, i);
    }
  }

  /** Beyond the cap rows get lost: with nothing mirrored, the points add up to the fetched rows exactly if none lies
      behind the last bucket, and the missing ones are those that do. */
  lemma LostBehindTheCap(items: seq<Item>, points: seq<Point>, from: int, to: int, g: Granularity)
    requires from <= to && Fetched(items, from, to) && Counting(items) && Unmirrored(from, to, g)
    requires IsChart(points, items, Buckets(from, to, g), g)
    ensures var end := Index(from, g) + BucketCount(from, to, g);
            && Sum(points) == TotalCovered(items, Index(from, g), BucketCount(from, to, g), g) <= |items|
            && (Sum(points) == |items| <==> forall i :: 0 <= i < |items| ==> Index(items[i].at, g) < end)
  {
    SumCountsKeys(points, items, Buckets(from, to, g), g);
    CoveredOnce(items, from, to, g);
    CoveredRows(items, Index(from, g), BucketCount(from, to, g), g);
  }

  /** Counted rows: every item has amount 1. */
  ghost predicate Counting(items: seq<Item>) { forall i :: 0 <= i < |items| ==> items[i].amount == 1 }

  lemma {:induction false} CoveredOnce(items: seq<Item>, from: int, to: int, g: Granularity)
    requires Fetched(items, from, to) && Unmirrored(from, to, g)
    ensures CountedTotal(items, Buckets(from, to, g), g)
         == TotalCovered(items, Index(from, g), BucketCount(from, to, g), g)
    decreases |items|
  {
    hide Index, BucketKey, Buckets, BucketCount, KeyCount, Copies, Mirrored;
    if items != [] {
      var front, last := items[..|items|-1], items[|items|-1];
      CoveredOnce(front, from, to, g);
      CopiesOfItem(from, to, g, last.at);
      IndexGrows(from, last.at, g);
      IndexGrows(last.at, to, g);
      CopiesOf(from, to, g, Index(last.at, g));
    }
  }

  lemma {:induction false} CoveredRows(items: seq<Item>, first: int, n: nat, g: Granularity)
    requires Counting(items)
    ensures TotalCovered(items, first, n, g) <= |items|
    ensures TotalCovered(items, first, n, g) == |items|
            <==> forall i :: 0 <= i < |items| ==> Index(items[i].at, g) < first + n
  {
    hide Index;
    if items != [] {
      CoveredRows(items[..|items|-1], first, n, g);
      assert forall i :: 0 <= i < |items| - 1 ==> items[i] == items[..|items|-1][i];
    }
  }

  /** A chart that counts twice: months from January of year 0 to January of year 1, one row at the start. */
  lemma CountedTwice()
    ensures var from, to := Start(0, Month), Start(12, Month);
            forall points :: IsChart(points, [Item(from, 1)], Buckets(from, to, Month), Month) ==> Sum(points) == 2
  {
    hide Buckets, BucketKey, Start, Index, Copies, KeyCount, Sum, IsChart, CountedTotal;
    var from, to := Start(0, Month), Start(12, Month);
    IndexOfStart(0, Month);
    IndexOfStart(12, Month);
    TwoCopies(from, to);
    CopiesOfItem(from, to, Month, from);
    OneItem(from, Buckets(from, to, Month), Month);
    forall points | IsChart(points, [Item(from, 1)], Buckets(from, to, Month), Month)
      ensures Sum(points) == 2
    {
      SumCountsKeys(points, [Item(from, 1)], Buckets(from, to, Month), Month);
    }
  }

  lemma TwoCopies(from: int, to: int)
    requires Index(from, Month) == 0 && Index(to, Month) == 12
    ensures Copies(from, to, Month, 0) == 2
  {
    hide Index, Copies, Mirrored;
    assert BucketCount(from, to, Month) == 13;
    hide BucketCount;
    MirroredMonths(0, 12);
    CopiesOf(from, to, Month, 0);
  }

  // ----- Revenue by plan -----

  datatype Payment = Payment(plan: Option<string>, amount: int)

  /** Payments without a plan count as "Unknown". */
  function LabelOf(p: Payment): string { if p.plan.Some? then p.plan.value else "Unknown" }

  function PlanTotal(payments: seq<Payment>, name: string): int {
    if payments == [] then 0
    else
      var last := payments[|payments|-1];
      PlanTotal(payments[..|payments|-1], name)
      + if last.plan == Some(name) || (last.plan == None && name == "Unknown") then last.amount else 0
  }

  function PaidTotal(payments: seq<Payment>): int {
    if payments == [] then 0 else PaidTotal(payments[..|payments|-1]) + payments[|payments|-1].amount
  }

  ghost predicate Distinct(names: seq<string>) { forall i, j :: 0 <= i < j < |names| ==> names[i] != names[j] }

  function MapTotal(totals: map<string, int>, order: seq<string>): int
    requires forall name <- order :: name in totals
  {
    if order == [] then 0
    else
      assert order[|order|-1] in order;
      MapTotal(totals, order[..|order|-1]) + totals[order[|order|-1]]
  }

  lemma {:induction false} MapTotalUpdate(totals: map<string, int>, order: seq<string>, name: string, v: int)
    requires (forall n <- order :: n in totals) && Distinct(order) && name in totals
    ensures forall n <- order :: n in totals[name := v]
    ensures MapTotal(totals[name := v], order)
         == MapTotal(totals, order) + if name in order then v - totals[name] else 0
  {
    if order != [] {
      var front := order[..|order|-1];
      MapTotalUpdate(totals, front, name, v);
      assert order == front + [order[|order|-1]];
      if name == order[|order|-1] { assert name !in front; }
    }
  }

  lemma {:induction false} MapTotalExtend(totals: map<string, int>, order: seq<string>, name: string, v: int)
    requires (forall n <- order :: n in totals) && name !in order
    ensures forall n <- order :: n in totals[name := v]
    ensures MapTotal(totals[name := v], order) == MapTotal(totals, order)
  {
    if order != [] {
      assert order[|order|-1] in order;
      MapTotalExtend(totals, order[..|order|-1], name, v);
    }
  }

  lemma GetUpdated(m: map<string, int>, m': map<string, int>, key: string, amount: int)
    requires m' == m[key := Get(m, key) + amount]
    ensures forall k :: Get(m', k) == Get(m, k) + if key == k then amount else 0
  {
  }

  lemma GetIsValue(m: map<string, int>)
    ensures forall key :: key in m ==> m[key] == Get(m, key)
  {
  }

  /** The labels of the payments in order of first appearance. */
  function FirstAppearances(payments: seq<Payment>): seq<string> {
    if payments == [] then []
    else
      var earlier, plan := FirstAppearances(payments[..|payments|-1]), LabelOf(payments[|payments|-1]);
      if plan in earlier then earlier else earlier + [plan]
  }

  ghost predicate Labelled(payments: seq<Payment>, i: int, name: string) {
    0 <= i < |payments| && (payments[i].plan == Some(name) || (payments[i].plan == None && name == "Unknown"))
  }

  /** Payment i is the first with its label. */
  ghost predicate FirstWith(payments: seq<Payment>, i: int, name: string) {
    Labelled(payments, i, name) && forall k :: 0 <= k < i ==> !Labelled(payments, k, name)
  }

  /** Each name listed once, exactly the labels paid for, and earlier names were paid for earlier. */
  ghost predicate InOrderOfAppearance(names: seq<string>, payments: seq<Payment>) {
    && Distinct(names) && (forall name :: name in names <==> exists i :: Labelled(payments, i, name))
    && forall a, b, i, j ::
        0 <= a < b < |names| && FirstWith(payments, i, names[a]) && FirstWith(payments, j, names[b]) ==> i < j
  }

  lemma {:induction false} AppearancesInOrder(payments: seq<Payment>)
    ensures InOrderOfAppearance(FirstAppearances(payments), payments)
  {
    if payments != [] {
      var front, last := payments[..|payments|-1], payments[|payments|-1];
      AppearancesInOrder(front);
      OneMoreAppearance(FirstAppearances(front), front, last);
      assert payments == front + [last];
    }
  }

  lemma OneMoreAppearance(names: seq<string>, front: seq<Payment>, last: Payment)
    requires InOrderOfAppearance(names, front)
    ensures InOrderOfAppearance(if LabelOf(last) in names then names else names + [LabelOf(last)], front + [last])
  {
    var payments := front + [last];
    var after := if LabelOf(last) in names then names else names + [LabelOf(last)];
    forall name
      ensures name in after <==> exists i :: Labelled(payments, i, name)
    {
      if i :| Labelled(front, i, name) { assert Labelled(payments, i, name); }
      if i :| Labelled(payments, i, name) { assert i < |front| ==> Labelled(front, i, name); }
      if name == LabelOf(last) { assert Labelled(payments, |front|, name); }
    }
    forall a, b, i, j | 0 <= a < b < |after| && FirstWith(payments, i, after[a]) && FirstWith(payments, j, after[b])
      ensures i < j
    {
      FirstStays(front, last, i, after[a]);
      assert after[a] in names;
      if b < |names| {
        FirstStays(front, last, j, after[b]);
        assert after[b] in names;
      } else {
        assert !Labelled(front, j, after[b]);
      }
    }
  }

  /** The first payment with a label that appeared before is the one it was. */
  lemma FirstStays(front: seq<Payment>, last: Payment, i: int, name: string)
    requires FirstWith(front + [last], i, name)
    ensures (exists k :: Labelled(front, k, name)) ==> FirstWith(front, i, name)
  {
    var payments := front + [last];
    if k :| Labelled(front, k, name) {
      assert Labelled(payments, k, name);
      forall m | 0 <= m < i ensures !Labelled(front, m, name) { assert !Labelled(payments, m, name); }
    }
  }

  /** The entries for some payments: one per label, in order of first appearance, with its total. */
  ghost predicate Booked(names: seq<string>, totals: map<string, int>, payments: seq<Payment>) {
    && (forall name :: name in names <==> name in totals)
    && Distinct(names) && names == FirstAppearances(payments)
    && (forall name :: Get(totals, name) == PlanTotal(payments, name))
    && MapTotal(totals, names) == PaidTotal(payments)
  }

  lemma NothingBooked()
    ensures Booked([], map[], [])
  {
  }

  lemma OneMorePayment(payments: seq<Payment>, last: Payment)
    ensures forall name :: PlanTotal(payments + [last], name)
                        == PlanTotal(payments, name) + if LabelOf(last) == name then last.amount else 0
    ensures PaidTotal(payments + [last]) == PaidTotal(payments) + last.amount
    ensures var earlier, name := FirstAppearances(payments), LabelOf(last);
            FirstAppearances(payments + [last]) == if name in earlier then earlier else earlier + [name]
  {
    assert (payments + [last])[..|payments|] == payments;
  }

  /** `getRevenueByPlan`: one entry per plan paid for and no other, in order of first appearance, each with the
      plan's total; the entries together hold all the money. */
  method RevenueByPlan(payments: seq<Payment>) returns (names: seq<string>, totals: map<string, int>)
    ensures names == FirstAppearances(payments) && InOrderOfAppearance(names, payments)
    ensures forall name :: name in names <==> name in totals
    ensures forall name :: name in totals ==> totals[name] == PlanTotal(payments, name)
    ensures MapTotal(totals, names) == PaidTotal(payments)
  {
    hide InOrderOfAppearance, FirstAppearances, PlanTotal, PaidTotal, MapTotal, LabelOf;
    names, totals := [], map[];
    NothingBooked();
    for i := 0 to |payments|
      invariant Booked(names, totals, payments[..i])
    {
      names, totals := AddPayment(names, totals, payments[i], payments[..i]);
      assert payments[..i] + [payments[i]] == payments[..i + 1];
    }
    assert payments[..|payments|] == payments;
    AppearancesInOrder(payments);
    GetIsValue(totals);
  }

  /** One round of the loop: `Map.set` appends a new key and keeps the place of a known one. */
  method AddPayment(names: seq<string>, totals: map<string, int>, last: Payment, ghost front: seq<Payment>)
    returns (names': seq<string>, totals': map<string, int>)
    requires Booked(names, totals, front)
    ensures Booked(names', totals', front + [last])
  {
    hide FirstAppearances, PlanTotal, PaidTotal, MapTotal, LabelOf, Get;
    var name := LabelOf(last);
    var total := Get(totals, name) + last.amount;
    names', totals' := names, totals[name := total];
    OneMorePayment(front, last);
    GetUpdated(totals, totals', name, last.amount);
    if name in totals {
      MapTotalUpdate(totals, names, name, total);
      GetIsValue(totals);
    } else {
      MapTotalExtend(totals, names, name, total);
      names' := names + [name];
      OneMoreName(totals', names, name);
      NoValue(totals, name);
    }
  }

  lemma OneMoreName(totals: map<string, int>, order: seq<string>, name: string)
    requires (forall n <- order :: n in totals) && name in totals
    ensures forall n <- order + [name] :: n in totals
    ensures MapTotal(totals, order + [name]) == MapTotal(totals, order) + totals[name]
  {
    assert (order + [name])[..|order|] == order;
  }

  lemma NoValue(m: map<string, int>, key: string)
    requires key !in m
    ensures Get(m, key) == 0
  {
  }
}
