/** Calendar buckets for trend charts. Times are milliseconds of local time at a fixed UTC offset. */
module TimeSeries {
  import opened Text
  import opened Calendar

  const DAY_MS := 86_400_000
  const MAX_BUCKETS := 4000

  datatype Granularity = Day | Week | Month | Year

  datatype Bucket = Bucket(key: string, start: int, end: int)

  function DayOf(t: int): int { t / DAY_MS }

  // ----- The date arithmetic of the source -----

  function StartOfBucket(t: int, g: Granularity): int {
    var day := DayOf(t);
    match g
    case Day => day * DAY_MS
    case Week =>
      var w := DayOfWeek(day);
      (day - ((if w < 1 then 7 else 0) + w - 1)) * DAY_MS
    case Month => MonthStart(MonthOf(day)) * DAY_MS
    case Year => YearStart(YearOf(day)) * DAY_MS
  }

  function AddDays(t: int, n: int): int { t + n * DAY_MS }

  /** Keeps the time of day; a day of the month the target month does not have becomes its last day. */
  function AddMonths(t: int, n: int): int {
    var month := MonthOf(DayOf(t)) + n;
    var length := MonthStart(month + 1) - MonthStart(month);
    var d := DayOfMonth(DayOf(t));
    (MonthStart(month) + (if d >= length then length else d) - 1) * DAY_MS + t % DAY_MS
  }

  function NextBucket(t: int, g: Granularity): int {
    match g
    case Day => AddDays(t, 1)
    case Week => AddDays(t, 7)
    case Month => AddMonths(t, 1)
    case Year => AddMonths(StartOfBucket(t, Month), 12)
  }

  function EndOfBucket(t: int, g: Granularity): int { NextBucket(t, g) - 1 }

  /** The year token `yyyy`: years before year 1 are written as years before Christ. */
  function FormatYear(y: int): string { PadStart(Decimal(if y > 0 then y else 1 - y), 4, '0') }

  function TwoDigits(n: nat): string { PadStart(Decimal(n), 2, '0') }

  function FormatMonth(day: int): string { FormatYear(YearOf(day)) + ("-" + TwoDigits(MonthOf(day) % 12 + 1)) }

  function FormatDay(day: int): string { FormatMonth(day) + ("-" + TwoDigits(DayOfMonth(day))) }

  function BucketKey(t: int, g: Granularity): string {
    var day := DayOf(StartOfBucket(t, g));
    match g
    case Day => FormatDay(day)
    case Week => FormatDay(day)
    case Month => FormatMonth(day)
    case Year => FormatYear(YearOf(day))
  }

  predicate IsInBucket(t: int, b: Bucket) { b.start <= t <= b.end }

  /** `resolveRange`, after the two dates have been parsed: by default the ninety days up to now. */
  function ResolveRange(dateFrom: Option<int>, dateTo: Option<int>, now: int): (r: (int, int))
    ensures r.0 <= r.1
    ensures if dateTo.Some? then r.1 == dateTo.value else r.1 == now
    ensures dateFrom.Some? && dateFrom.value <= r.1 ==> r.0 == dateFrom.value
    ensures dateFrom.Some? && dateFrom.value > r.1 ==> r.0 == r.1
    ensures dateFrom.None? ==> r.1 - r.0 == 7_776_000_000
  {
    var to := if dateTo.Some? then dateTo.value else now;
    var from := if dateFrom.Some? then dateFrom.value else to - 90 * DAY_MS;
    if from > to then (to, to) else (from, to)
  }

  // ----- Buckets by number -----

  /** Buckets are numbered consecutively; this is the number of the bucket a time lies in. */
  function Index(t: int, g: Granularity): int {
    match g
    case Day => DayOf(t)
    case Week => (DayOf(t) + 3) / 7
    case Month => MonthOf(DayOf(t))
    case Year => YearOf(DayOf(t))
  }

  function StartDay(i: int, g: Granularity): int {
    match g
    case Day => i
    case Week => 7 * i - 3
    case Month => MonthStart(i)
    case Year => YearStart(i)
  }

  function Start(i: int, g: Granularity): int { StartDay(i, g) * DAY_MS }

  lemma DayOfStart(day: int)
    ensures DayOf(day * DAY_MS) == day && (day * DAY_MS) % DAY_MS == 0
  {
  }

  /** The bucket start of the source is the start of the numbered bucket around the time. */
  lemma StartIsIndexed(t: int, g: Granularity)
    ensures StartOfBucket(t, g) == Start(Index(t, g), g)
    ensures Start(Index(t, g), g) <= t < Start(Index(t, g) + 1, g)
  {
    hide YearStart, MonthStart, YearOf, MonthOf;
    MonthOfBounds(DayOf(t));
    assert DayOf(t) * DAY_MS <= t < (DayOf(t) + 1) * DAY_MS;
  }

  lemma StartIncreasing(i: int, j: int, g: Granularity)
    requires i < j
    ensures Start(i, g) < Start(j, g)
  {
    hide YearStart, MonthStart;
    match g
    case Day =>
    case Week =>
    case Month => MonthStartIncreasing(i, j);
    case Year => YearStartIncreasing(i, j);
  }

  lemma IndexIsUnique(t: int, i: int, g: Granularity)
    requires Start(i, g) <= t < Start(i + 1, g)
    ensures Index(t, g) == i
  {
    hide *;
    StartIsIndexed(t, g);
    var k := Index(t, g);
    if k + 1 < i { StartIncreasing(k + 1, i, g); }
    if i + 1 < k { StartIncreasing(i + 1, k, g); }
  }

  lemma IndexOfStart(i: int, g: Granularity)
    ensures Index(Start(i, g), g) == i && StartOfBucket(Start(i, g), g) == Start(i, g)
  {
    hide *;
    StartIncreasing(i, i + 1, g);
    IndexIsUnique(Start(i, g), i, g);
    StartIsIndexed(Start(i, g), g);
  }

  lemma FirstOfMonthPlus(month: int, n: int)
    ensures AddMonths(MonthStart(month) * DAY_MS, n) == MonthStart(month + n) * DAY_MS
  {
    hide MonthStart, MonthOf;
    DayOfStart(MonthStart(month));
    MonthStep(month);
    MonthIsUnique(MonthStart(month), month);
    MonthStep(month + n);
  }

  /** The step of the source goes from each bucket to the next, through month ends, leap years and weeks. */
  lemma NextIsIndexed(i: int, g: Granularity)
    ensures NextBucket(Start(i, g), g) == Start(i + 1, g)
  {
    hide MonthStart, YearStart, MonthOf, YearOf, AddMonths, Index, StartOfBucket;
    match g
    case Day =>
    case Week =>
    case Month => FirstOfMonthPlus(i, 1);
    case Year =>
      JanuaryStarts(i);
      IndexOfStart(12 * i, Month);
      FirstOfMonthPlus(12 * i, 12);
  }

  lemma JanuaryStarts(y: int)
    ensures MonthStart(12 * y) == YearStart(y) && MonthStart(12 * y + 12) == YearStart(y + 1)
  {
    MonthStartOf(y, 0);
    MonthStartOf(y + 1, 0);
    assert 12 * (y + 1) + 0 == 12 * y + 12;
  }

  // ----- buildBuckets -----

  function BucketAt(i: int, g: Granularity): Bucket {
    Bucket(BucketKey(Start(i, g), g), Start(i, g), Start(i + 1, g) - 1)
  }

  /** How many buckets the loop produces: one per calendar unit from first to last, at most 4000. */
  function BucketCount(from: int, to: int, g: Granularity): nat {
    var n := Index(to, g) - Index(from, g) + 1;
    if n < 0 then 0 else if n < MAX_BUCKETS then n else MAX_BUCKETS
  }

  function Buckets(from: int, to: int, g: Granularity): seq<Bucket> {
    Tabulate(BucketCount(from, to, g), k => BucketAt(Index(from, g) + k, g))
  }

  lemma BucketsShape(from: int, to: int, g: Granularity)
    ensures var b := Buckets(from, to, g);
            |b| == BucketCount(from, to, g) && forall k :: 0 <= k < |b| ==> b[k] == BucketAt(Index(from, g) + k, g)
  {
    hide Index, BucketAt, BucketCount;
  }

  method BuildBuckets(from: int, to: int, g: Granularity) returns (buckets: seq<Bucket>)
    ensures buckets == Buckets(from, to, g)
  {
    hide Index, BucketKey, Start, StartOfBucket, NextBucket, Buckets;
    buckets := [];
    var start := StartOfBucket(from, g);
    var end := StartOfBucket(to, g);
    StartIsIndexed(from, g);
    StartIsIndexed(to, g);
    var cursor := start;
    var guard := 0;
    ghost var first, last := Index(from, g), Index(to, g);
    while cursor <= end && guard < MAX_BUCKETS
      invariant 0 <= guard <= MAX_BUCKETS && |buckets| == guard
      invariant cursor == Start(first + guard, g)
      invariant forall k :: 0 <= k < guard ==> buckets[k] == BucketAt(first + k, g)
      invariant guard > 0 ==> first + guard <= last + 1
      decreases MAX_BUCKETS - guard
    {
      CompareStarts(first + guard, last, g);
      NextIsIndexed(first + guard, g);
      buckets := buckets + [Bucket(BucketKey(cursor, g), cursor, EndOfBucket(cursor, g))];
      cursor := NextBucket(cursor, g);
      guard := guard + 1;
    }
    CompareStarts(first + guard, last, g);
    BucketsShape(from, to, g);
    assert buckets == Buckets(from, to, g);
  }

  lemma CompareStarts(i: int, j: int, g: Granularity)
    ensures Start(i, g) <= Start(j, g) <==> i <= j
  {
    if i < j { StartIncreasing(i, j, g); }
    if j < i { StartIncreasing(j, i, g); }
  }

  // ----- Keys -----

  /** Years that are written alike: the key has no sign, and year 0 is 1 BC. */
  predicate AlikeYears(y: int, z: int) { y == z || y + z == 1 }

  lemma FormatYearIff(y: int, z: int)
    ensures FormatYear(y) == FormatYear(z) <==> AlikeYears(y, z)
  {
    var a, b := if y > 0 then y else 1 - y, if z > 0 then z else 1 - z;
    PadStartShape(Decimal(a), 4, '0');
    PadStartShape(Decimal(b), 4, '0');
    DecimalRoundTrip(a);
    DecimalRoundTrip(b);
  }

  lemma TwoDigitsShape(n: nat)
    requires n < 100
    ensures |TwoDigits(n)| == 2 && AllDigits(TwoDigits(n)) && DecimalValue(TwoDigits(n)) == n
  {
    DecimalWidth(n, 2);
    assert Pow10(2) == 10 * Pow10(1) && Pow10(1) == 10 * Pow10(0);
    PadStartShape(Decimal(n), 2, '0');
    DecimalRoundTrip(n);
  }

  /** Two texts joined by a dash, of which the second has a fixed length. */
  lemma PartsEqual(a: string, b: string, a': string, b': string)
    requires |b| == |b'|
    ensures a + ("-" + b) == a' + ("-" + b') <==> a == a' && b == b'
  {
    if a + ("-" + b) == a' + ("-" + b') {
      SplitEqual(a, "-" + b, a', "-" + b');
      SplitEqual("-", b, "-", b');
    }
  }

  lemma FormatMonthShape(day: int)
    ensures FormatMonth(day) == FormatYear(YearOf(day)) + ("-" + TwoDigits(MonthPart(day) + 1))
  {
    hide YearOf, MonthOf, MonthPart, FormatYear, TwoDigits;
    MonthOfBounds(day);
  }

  lemma FormatMonthIff(a: int, b: int)
    ensures FormatMonth(a) == FormatMonth(b) <==> AlikeYears(YearOf(a), YearOf(b)) && MonthPart(a) == MonthPart(b)
  {
    hide YearOf, MonthOf, MonthPart, FormatYear, FormatMonth, TwoDigits, DecimalValue, AlikeYears;
    FormatMonthShape(a);
    FormatMonthShape(b);
    var m, n := MonthPart(a) + 1, MonthPart(b) + 1;
    TwoDigitsShape(m);
    TwoDigitsShape(n);
    FormatYearIff(YearOf(a), YearOf(b));
    PartsEqual(FormatYear(YearOf(a)), TwoDigits(m), FormatYear(YearOf(b)), TwoDigits(n));
  }

  lemma FormatDayIff(a: int, b: int)
    ensures FormatDay(a) == FormatDay(b) <==>
            AlikeYears(YearOf(a), YearOf(b)) && MonthPart(a) == MonthPart(b) && DayOfMonth(a) == DayOfMonth(b)
  {
    hide YearOf, MonthPart, DayOfMonth, FormatMonth, TwoDigits, DecimalValue, AlikeYears;
    DayOfMonthBounds(a);
    DayOfMonthBounds(b);
    TwoDigitsShape(DayOfMonth(a));
    TwoDigitsShape(DayOfMonth(b));
    FormatMonthIff(a, b);
    PartsEqual(FormatMonth(a), TwoDigits(DayOfMonth(a)), FormatMonth(b), TwoDigits(DayOfMonth(b)));
  }

  lemma KeyOfStart(i: int, g: Granularity)
    ensures BucketKey(Start(i, g), g) ==
            match g
            case Day => FormatDay(StartDay(i, g))
            case Week => FormatDay(StartDay(i, g))
            case Month => FormatMonth(StartDay(i, g))
            case Year => FormatYear(YearOf(StartDay(i, g)))
  {
    hide YearStart, MonthStart, YearOf, MonthOf, FormatDay, FormatMonth, FormatYear;
    IndexOfStart(i, g);
    DayOfStart(StartDay(i, g));
  }

  /** Two buckets begin on the same date, as far as the granularity shows it, of a year y and the year 1 - y. */
  predicate Mirrored(i: int, j: int, g: Granularity) {
    var a, b := StartDay(i, g), StartDay(j, g);
    && YearOf(a) + YearOf(b) == 1
    && (g.Year? || MonthPart(a) == MonthPart(b))
    && (g.Year? || g.Month? || DayOfMonth(a) == DayOfMonth(b))
  }

  /** Exactly when two buckets share a key, for every granularity: they are the same, or mirrored. */
  lemma KeysEqual(i: int, j: int, g: Granularity)
    ensures BucketKey(Start(i, g), g) == BucketKey(Start(j, g), g) <==> i == j || Mirrored(i, j, g)
  {
    hide YearStart, MonthStart, YearOf, MonthPart, DayOfMonth, BucketKey, FormatDay, FormatMonth, FormatYear, Start;
    KeyOfStart(i, g);
    KeyOfStart(j, g);
    var a, b := StartDay(i, g), StartDay(j, g);
    match g
    case Day =>
      FormatDayIff(a, b);
      SameDay(a, b);
    case Week =>
      FormatDayIff(a, b);
      SameDay(a, b);
    case Month =>
      FormatMonthIff(a, b);
      MonthOfStart(i);
      MonthOfStart(j);
    case Year =>
      FormatYearIff(YearOf(a), YearOf(b));
      YearOfStart(i);
      YearOfStart(j);
  }

  lemma SameDay(a: int, b: int)
    ensures YearOf(a) == YearOf(b) && MonthPart(a) == MonthPart(b) && DayOfMonth(a) == DayOfMonth(b) <==> a == b
  {
    hide YearStart, DaysBefore, IsLeap, YearOf, MonthPart, DayOfMonth;
    DayInYear(a);
    DayInYear(b);
  }

  lemma MonthOfStart(i: int)
    ensures 12 * YearOf(MonthStart(i)) + MonthPart(MonthStart(i)) == i
    ensures YearOf(MonthStart(i)) == i / 12 && MonthPart(MonthStart(i)) == i % 12
  {
    hide YearOf, MonthPart, MonthStart;
    MonthStep(i);
    MonthIsUnique(MonthStart(i), i);
    MonthOfBounds(MonthStart(i));
  }

  lemma YearOfStart(i: int)
    ensures YearOf(YearStart(i)) == i
  {
    hide YearOf, YearStart;
    YearStartIncreasing(i, i + 1);
    YearIsUnique(YearStart(i), i);
  }

  // ----- Which ranges have mirrored buckets -----

  /** The weeks that begin in year -5, the last year whose Mondays fall on the same dates as those of its mirror. */
  const FIRST_MIRRORED_WEEK := -103_050
  const LAST_MIRRORED_WEEK := -102_999
  const MIRRORED_WEEKS := 574

  function Max(a: int, b: int): int { if a < b then b else a }

  /** The day of year 1 that mirrors a day of year 0, or the next one if it is 29 February. */
  function MirrorDay(day: int): int { day + if day <= YearStart(0) + 59 then 366 else 365 }

  /** The buckets from number first to number last include two that share a key. */
  predicate HasMirror(first: int, last: int, g: Granularity) {
    match g
    case Day => first < YearStart(1) && MirrorDay(Max(first, YearStart(0))) <= last
    case Week => first <= LAST_MIRRORED_WEEK && Max(first, FIRST_MIRRORED_WEEK) + MIRRORED_WEEKS <= last
    case Month => first <= 11 && Max(first, 0) + 12 <= last
    case Year => first <= 0 && 1 <= last
  }

  ghost predicate MirroredWithin(first: int, last: int, g: Granularity, i: int, j: int) {
    first <= i < j <= last && Mirrored(i, j, g)
  }

  /** A range has two buckets with the same key exactly if it reaches from the innermost mirrored bucket on or after
      its start to the mirror of that bucket: a question of two comparisons. */
  lemma MirrorsInRange(first: int, last: int, g: Granularity)
    ensures HasMirror(first, last, g) <==> exists i, j :: MirroredWithin(first, last, g, i, j)
  {
    hide HasMirror, MirroredWithin;
    if HasMirror(first, last, g) {
      var i, j := InnermostMirror(first, last, g);
    }
    if i, j :| MirroredWithin(first, last, g, i, j) { MirrorReachesIn(first, last, g, i, j); }
  }

  lemma InnermostMirror(first: int, last: int, g: Granularity) returns (i: int, j: int)
    requires HasMirror(first, last, g)
    ensures MirroredWithin(first, last, g, i, j)
  {
    YearLimits();
    hide YearStart, YearOf, MonthPart, DayOfMonth, Mirrored, MonthStart;
    match g
    case Day =>
      i := Max(first, YearStart(0));
      j := MirrorDay(i);
      if i == YearStart(0) + 59 { i := i + 1; }
      MirroredInYearZero(i, j);
    case Week =>
      i := Max(first, FIRST_MIRRORED_WEEK);
      j := i + MIRRORED_WEEKS;
      MirroredInYearMinusFive(i);
    case Month =>
      i := Max(first, 0);
      j := i + 12;
      MirroredMonths(i, j);
    case Year =>
      i, j := 0, 1;
      MirroredYears(0, 1);
  }

  lemma MirrorReachesIn(first: int, last: int, g: Granularity, i: int, j: int)
    requires MirroredWithin(first, last, g, i, j)
    ensures HasMirror(first, last, g)
  {
    hide YearStart, YearOf, MonthPart, DayOfMonth, Mirrored, MonthStart;
    match g
    case Day => MirroredDayReachesIn(first, last, i, j);
    case Week => MirroredWeekReachesIn(first, last, i, j);
    case Month => MirroredMonths(i, j);
    case Year => MirroredYears(i, j);
  }

  lemma MirroredYears(i: int, j: int)
    ensures Mirrored(i, j, Year) <==> i + j == 1
  {
    hide YearOf, YearStart;
    YearOfStart(i);
    YearOfStart(j);
  }

  lemma MirroredMonths(i: int, j: int)
    ensures Mirrored(i, j, Month) <==> i / 12 + j / 12 == 1 && i % 12 == j % 12
  {
    hide YearOf, MonthPart, MonthStart;
    MonthOfStart(i);
    MonthOfStart(j);
  }

  lemma YearLimits()
    ensures YearStart(0) == -719_528 && YearStart(1) == -719_162 && YearStart(2) == -718_797
    ensures YearStart(-5) == -721_354 && YearStart(-4) == -720_989 && YearStart(6) == -717_336
            && YearStart(7) == -716_971
    ensures IsLeap(0) && !IsLeap(1) && !IsLeap(-5) && !IsLeap(6)
  {
  }

  /** Mirrored days, by their places in the two years. */
  lemma MirroredDays(a: int, b: int)
    ensures YearOf(a) + YearOf(b) == 1 && MonthPart(a) == MonthPart(b) && DayOfMonth(a) == DayOfMonth(b) <==>
            var y := YearOf(a);
            YearOf(b) == 1 - y && SameDate(a - YearStart(y), IsLeap(y), b - YearStart(1 - y), IsLeap(1 - y))
  {
    hide YearStart, YearOf, MonthPart, DayOfMonth, SameDate, IsLeap;
    DatesAgree(a, b);
  }

  lemma MirroredInYearZero(i: int, j: int)
    requires YearStart(0) <= i < YearStart(1) && i != YearStart(0) + 59 && j == MirrorDay(i)
    ensures Mirrored(i, j, Day)
  {
    YearLimits();
    hide YearStart, YearOf, MonthPart, DayOfMonth, IsLeap;
    YearIsUnique(i, 0);
    YearIsUnique(j, 1);
    MirroredDays(i, j);
  }

  lemma MirroredInYearMinusFive(i: int)
    requires FIRST_MIRRORED_WEEK <= i <= LAST_MIRRORED_WEEK
    ensures Mirrored(i, i + MIRRORED_WEEKS, Week)
  {
    YearLimits();
    hide YearStart, YearOf, MonthPart, DayOfMonth, IsLeap;
    var a, b := StartDay(i, Week), StartDay(i + MIRRORED_WEEKS, Week);
    YearIsUnique(a, -5);
    YearIsUnique(b, 6);
    MirroredDays(a, b);
  }

  /** Of two mirrored days the earlier lies in a year up to 0, and the years between are whole. */
  lemma EarlierYear(a: int, b: int)
    requires a < b && YearOf(a) + YearOf(b) == 1
    ensures YearOf(a) <= 0
  {
    hide YearOf, YearStart;
    if YearOf(a) > 0 { YearStartUpTo(YearOf(b) + 1, YearOf(a)); }
  }

  lemma YearStartUpTo(y: int, z: int)
    requires y <= z
    ensures YearStart(y) <= YearStart(z)
  {
    hide YearStart;
    if y < z { YearStartIncreasing(y, z); }
  }

  lemma MirroredDayReachesIn(first: int, last: int, i: int, j: int)
    requires first <= i < j <= last && Mirrored(i, j, Day)
    ensures HasMirror(first, last, Day)
  {
    YearLimits();
    hide YearStart, YearOf, MonthPart, DayOfMonth, IsLeap;
    MirroredDays(i, j);
    EarlierYear(i, j);
    var y := YearOf(i);
    YearStartUpTo(y + 1, 1);
    if y < 0 {
      YearStartUpTo(y + 1, 0);
      YearStartUpTo(2, 1 - y);
    }
  }

  lemma MirroredWeekReachesIn(first: int, last: int, i: int, j: int)
    requires first <= i < j <= last && Mirrored(i, j, Week)
    ensures HasMirror(first, last, Week)
  {
    YearLimits();
    var a, b := StartDay(i, Week), StartDay(j, Week);
    hide YearStart, YearOf, MonthPart, DayOfMonth, IsLeap;
    MirroredDays(a, b);
    EarlierYear(a, b);
    var y := YearOf(a);
    WholeWeeksApart(y, a - YearStart(y), b - YearStart(1 - y), j - i);
    if y < -5 {
      YearStartUpTo(y + 1, -5);
      YearStartUpTo(7, 1 - y);
    }
  }

  /** The last five years before year 1 have no week that begins on the same date as one of their mirrors. */
  lemma WholeWeeksApart(y: int, k: int, n: int, weeks: int)
    requires y <= 0 && SameDate(k, IsLeap(y), n, IsLeap(1 - y))
    requires YearStart(1 - y) + n == YearStart(y) + k + 7 * weeks
    ensures y <= -5
  {
  }

  /** The key of a time is the key of the bucket around it. */
  lemma KeyIsIndexed(t: int, g: Granularity)
    ensures BucketKey(t, g) == BucketKey(Start(Index(t, g), g), g)
  {
    StartIsIndexed(t, g);
    IndexOfStart(Index(t, g), g);
  }

  // ----- What a key says -----

  ghost predicate IsNumeral(s: string, n: nat) { AllDigits(s) && DecimalValue(s) == n }

  /** The text starts with the year, in four digits if it has no more, and leaves the rest. Year 0 is shown as 1, -1 as
      2 and so on. */
  ghost predicate ShowsYear(key: string, y: int, n: nat) {
    && n <= |key| && IsNumeral(key[..n], if y > 0 then y else 1 - y)
    && if -9999 < y < 10000 then n == 4 else n > 4
  }

  /** Two digits behind a dash. */
  ghost predicate ShowsPart(key: string, at: int, v: nat) {
    0 <= at && at + 3 <= |key| && key[at] == '-' && IsNumeral(key[at + 1..at + 3], v)
  }

  /** Day d of month m of year y, months from 1 to 12. */
  ghost predicate IsDate(day: int, y: int, m: int, d: int) {
    1 <= m <= 12 && 1 <= d && day == MonthStart(12 * y + m - 1) + d - 1 && day < MonthStart(12 * y + m)
  }

  lemma FormatYearShows(y: int)
    ensures ShowsYear(FormatYear(y), y, |FormatYear(y)|)
  {
    var n := if y > 0 then y else 1 - y;
    PadStartShape(Decimal(n), 4, '0');
    DecimalRoundTrip(n);
    DecimalWidth(n, 4);
    assert Pow10(4) == 10_000 by { Pow10Four(); }
    assert FormatYear(y)[..|FormatYear(y)|] == FormatYear(y);
  }

  lemma Pow10Four()
    ensures Pow10(4) == 10_000
  {
    assert Pow10(4) == 10 * Pow10(3) && Pow10(3) == 10 * Pow10(2) && Pow10(2) == 10 * Pow10(1)
        && Pow10(1) == 10 * Pow10(0);
  }

  lemma DateOf(day: int) returns (y: int, m: int, d: int)
    ensures IsDate(day, y, m, d) && y == YearOf(day) && m == MonthPart(day) + 1 && d == DayOfMonth(day)
  {
    hide YearOf, MonthPart, MonthStart;
    MonthOfBounds(day);
    y, m, d := YearOf(day), MonthPart(day) + 1, DayOfMonth(day);
    assert MonthOf(day) == 12 * y + m - 1;
  }

  lemma ShowsAfter(head: string, y: int, n: nat, tail: string)
    requires ShowsYear(head, y, n)
    ensures ShowsYear(head + tail, y, n)
  {
    assert (head + tail)[..n] == head[..n];
  }

  lemma PartAfter(head: string, v: nat)
    requires v < 100
    ensures ShowsPart(head + ("-" + TwoDigits(v)), |head|, v) && |head + ("-" + TwoDigits(v))| == |head| + 3
  {
    hide TwoDigits, DecimalValue;
    TwoDigitsShape(v);
    var key := head + ("-" + TwoDigits(v));
    assert key[|head| + 1..|head| + 3] == TwoDigits(v);
  }

  lemma PartBefore(head: string, at: int, v: nat, tail: string)
    requires ShowsPart(head, at, v)
    ensures ShowsPart(head + tail, at, v)
  {
    assert (head + tail)[at + 1..at + 3] == head[at + 1..at + 3];
  }

  lemma MonthKeyShows(day: int) returns (y: int, m: int, d: int, n: nat)
    ensures IsDate(day, y, m, d) && d == DayOfMonth(day)
    ensures ShowsYear(FormatMonth(day), y, n) && ShowsPart(FormatMonth(day), n, m) && |FormatMonth(day)| == n + 3
  {
    hide IsDate, YearOf, MonthOf, MonthPart, DayOfMonth, FormatYear, FormatMonth, TwoDigits, ShowsYear, ShowsPart;
    y, m, d := DateOf(day);
    n := |FormatYear(y)|;
    FormatYearShows(y);
    FormatMonthShape(day);
    PartAfter(FormatYear(y), m);
    ShowsAfter(FormatYear(y), y, n, "-" + TwoDigits(m));
  }

  /** The key of a unit is the date of its first day, year, month and day of the month, as far as the granularity shows
      it; months begin on the first and years on 1 January. */
  lemma KeyShowsDate(i: int, g: Granularity) returns (y: int, m: int, d: int, n: nat)
    ensures IsDate(StartDay(i, g), y, m, d)
    ensures var key := BucketKey(Start(i, g), g);
            && ShowsYear(key, y, n)
            && (g.Year? || ShowsPart(key, n, m))
            && (g.Year? || g.Month? || ShowsPart(key, n + 3, d))
            && |key| == n + match g case Year => 0 case Month => 3 case _ => 6
    ensures g.Month? || g.Year? ==> d == 1
    ensures g.Year? ==> m == 1 && y == i
  {
    hide YearOf, MonthOf, MonthPart, DayOfMonth, MonthStart, YearStart, FormatYear, FormatMonth, TwoDigits, BucketKey,
        Start, ShowsYear, ShowsPart;
    var day := StartDay(i, g);
    KeyOfStart(i, g);
    y, m, d, n := MonthKeyShows(day);
    match g
    case Day => DayKeyShows(day, y, m, d, n);
    case Week => DayKeyShows(day, y, m, d, n);
    case Month =>
      FirstOfUnit(i, day, y, m, d);
    case Year =>
      JanuaryStarts(i);
      FirstOfUnit(12 * i, day, y, m, d);
      n := |FormatYear(i)|;
      FormatYearShows(i);
      YearOfStart(i);
  }

  lemma DayKeyShows(day: int, y: int, m: nat, d: nat, n: nat)
    requires ShowsYear(FormatMonth(day), y, n) && ShowsPart(FormatMonth(day), n, m) && |FormatMonth(day)| == n + 3
    requires d == DayOfMonth(day)
    ensures ShowsYear(FormatDay(day), y, n) && ShowsPart(FormatDay(day), n, m) && ShowsPart(FormatDay(day), n + 3, d)
    ensures |FormatDay(day)| == n + 6
  {
    hide FormatMonth, TwoDigits, DayOfMonth, ShowsYear, ShowsPart;
    DayOfMonthBounds(day);
    var tail := "-" + TwoDigits(d);
    ShowsAfter(FormatMonth(day), y, n, tail);
    PartBefore(FormatMonth(day), n, m, tail);
    PartAfter(FormatMonth(day), d);
  }

  lemma FirstOfUnit(month: int, day: int, y: int, m: int, d: int)
    requires day == MonthStart(month) && IsDate(day, y, m, d)
    ensures d == 1 && month == 12 * y + m - 1
  {
    hide MonthStart, MonthOf;
    MonthIsUnique(day, 12 * y + m - 1);
    MonthStartIncreasing(month, month + 1);
    MonthIsUnique(day, month);
  }

  // ----- How long a unit is -----

  /** Calendar units by their lengths: days, weeks from Monday (29 December 1969 was one), months by the calendar and
      years of 365 or 366 days. With the places where they meet 1 January 1970 this fixes all of them. */
  lemma UnitLengths(i: int, g: Granularity)
    ensures Start(0, Day) == 0 == Start(12 * 1970, Month) == Start(1970, Year) && Start(0, Week) == -3 * 86_400_000
    ensures Start(i + 1, g) - Start(i, g) == 86_400_000 * match g
              case Day => 1
              case Week => 7
              case Month =>
                var (year, m) := (i / 12, i % 12);
                if m in {0, 2, 4, 6, 7, 9, 11} then 31
                else if m in {3, 5, 8, 10} then 30
                else if year % 4 == 0 && (year % 100 != 0 || year % 400 == 0) then 29 else 28
              case Year => if i % 4 == 0 && (i % 100 != 0 || i % 400 == 0) then 366 else 365
  {
    assert YearStart(1970) == 0;
    hide MonthStart, YearStart;
    MonthLengths(i);
    YearLength(i);
  }

  /** The first bucket holds the start of the range, each is the unit after the one before it, and lasts as long as that
      unit of the calendar. */
  lemma BucketLengths(from: int, to: int, g: Granularity, k: nat)
    requires from <= to && k < BucketCount(from, to, g) == |Buckets(from, to, g)|
    ensures Buckets(from, to, g)[0].start <= from <= Buckets(from, to, g)[0].end
    ensures var b, i := Buckets(from, to, g)[k], Index(from, g) + k;
            && b.start == Start(i, g)
            && b.end + 1 - b.start == 86_400_000 * match g
                 case Day => 1
                 case Week => 7
                 case Month =>
                   var (year, m) := (i / 12, i % 12);
                   if m in {0, 2, 4, 6, 7, 9, 11} then 31
                   else if m in {3, 5, 8, 10} then 30
                   else if year % 4 == 0 && (year % 100 != 0 || year % 400 == 0) then 29 else 28
                 case Year => if i % 4 == 0 && (i % 100 != 0 || i % 400 == 0) then 366 else 365
  {
    hide Index, Start, BucketKey, Buckets, BucketCount;
    BucketsShape(from, to, g);
    StartIsIndexed(from, g);
    UnitLengths(Index(from, g) + k, g);
    assert Buckets(from, to, g)[0] == BucketAt(Index(from, g) + 0, g);
  }

  // ----- Tiling -----

  /** The buckets are contiguous and start at or before the range; they reach its end exactly when
      the range spans at most 4000 calendar units. */
  lemma BucketsTile(from: int, to: int, g: Granularity)
    requires from <= to
    ensures var b := Buckets(from, to, g);
            && b != [] && b[0].start <= from
            && (forall k :: 0 <= k < |b| ==> b[k].start <= b[k].end)
            && (forall k :: 0 < k < |b| ==> b[k].start == b[k - 1].end + 1)
            && (to <= b[|b|-1].end <==> Index(to, g) - Index(from, g) < 4000)
  {
    hide Index, BucketKey, Start, StartOfBucket, Buckets;
    BucketsShape(from, to, g);
    var b := Buckets(from, to, g);
    var first := Index(from, g);
    StartIsIndexed(from, g);
    StartIsIndexed(to, g);
    IndexGrows(from, to, g);
    forall k | 0 <= k < |b|
      ensures b[k].start <= b[k].end
    {
      StartIncreasing(first + k, first + k + 1, g);
    }
    CompareStarts(first + |b|, Index(to, g), g);
    if Index(to, g) < first + |b| { CompareStarts(Index(to, g) + 1, first + |b|, g); }
  }

  lemma IndexGrows(s: int, t: int, g: Granularity)
    requires s <= t
    ensures Index(s, g) <= Index(t, g)
  {
    hide Index, Start, StartOfBucket;
    StartIsIndexed(s, g);
    StartIsIndexed(t, g);
    if Index(t, g) + 1 <= Index(s, g) { CompareStarts(Index(t, g) + 1, Index(s, g), g); }
  }

  /** A time of the range lies in bucket k exactly when k is its number, and has the key of bucket k exactly when it
      lies in it or in a bucket mirrored to it. */
  lemma KeyFindsBucket(from: int, to: int, t: int, g: Granularity, k: nat)
    requires from <= t <= to && k < BucketCount(from, to, g)
    ensures IsInBucket(t, Buckets(from, to, g)[k]) <==> Index(t, g) == Index(from, g) + k
    ensures BucketKey(t, g) == Buckets(from, to, g)[k].key <==>
            Index(t, g) == Index(from, g) + k || Mirrored(Index(t, g), Index(from, g) + k, g)
  {
    hide Index, BucketKey, Start, Mirrored, StartOfBucket, Buckets;
    BucketsShape(from, to, g);
    var i := Index(from, g) + k;
    StartIsIndexed(t, g);
    KeyIsIndexed(t, g);
    if IsInBucket(t, BucketAt(i, g)) { IndexIsUnique(t, i, g); }
    KeysEqual(Index(t, g), i, g);
  }

  /** Every time of the range is in one bucket exactly when the cap was not hit before it. */
  lemma EveryTimeHasItsBucket(from: int, to: int, t: int, g: Granularity)
    requires from <= t <= to
    ensures (exists k :: 0 <= k < BucketCount(from, to, g) && IsInBucket(t, Buckets(from, to, g)[k]))
       <==> Index(t, g) - Index(from, g) < 4000
    ensures forall j, k :: 0 <= j < k < BucketCount(from, to, g) ==>
                             !(IsInBucket(t, Buckets(from, to, g)[j]) && IsInBucket(t, Buckets(from, to, g)[k]))
  {
    hide Index, BucketKey, Start, Mirrored, StartOfBucket, Buckets;
    BucketsShape(from, to, g);
    var b := Buckets(from, to, g);
    var first := Index(from, g);
    IndexGrows(from, t, g);
    IndexGrows(t, to, g);
    forall k | 0 <= k < |b|
      ensures IsInBucket(t, b[k]) <==> Index(t, g) == first + k
    {
      KeyFindsBucket(from, to, t, g, k);
    }
    if Index(t, g) - first < MAX_BUCKETS {
      assert IsInBucket(t, b[Index(t, g) - first]);
    }
  }

  /** None of the units from first to last is mirrored to one of the first n. */
  ghost predicate NoneMirrored(first: int, last: int, n: nat, g: Granularity) {
    forall i, j :: first <= i <= last && first <= j < first + n ==> !Mirrored(i, j, g)
  }

  /** No unit of the range is mirrored to a bucket of the chart. */
  ghost predicate Unmirrored(from: int, to: int, g: Granularity) {
    NoneMirrored(Index(from, g), Index(to, g), BucketCount(from, to, g), g)
  }

  /** A time of the range lies in a bucket exactly if it has the bucket's key. */
  ghost predicate KeysTell(from: int, to: int, g: Granularity)
    requires |Buckets(from, to, g)| == BucketCount(from, to, g)
  {
    forall t, k :: from <= t <= to && 0 <= k < BucketCount(from, to, g) ==>
                     (IsInBucket(t, Buckets(from, to, g)[k]) <==> BucketKey(t, g) == Buckets(from, to, g)[k].key)
  }

  /** Some time of the range lies in each of its units. */
  lemma TimeInUnit(from: int, to: int, g: Granularity, i: int) returns (t: int)
    requires from <= to && Index(from, g) <= i <= Index(to, g)
    ensures from <= t <= to && Index(t, g) == i
  {
    hide Index, Start, StartOfBucket;
    if i == Index(from, g) {
      t := from;
    } else {
      t := Start(i, g);
      IndexOfStart(i, g);
      StartIsIndexed(from, g);
      StartIsIndexed(to, g);
      CompareStarts(Index(from, g) + 1, i, g);
      CompareStarts(i, Index(to, g), g);
    }
  }

  /** Keys tell buckets apart over the whole range exactly when nothing in it is mirrored. */
  lemma KeysTellBuckets(from: int, to: int, g: Granularity)
    requires from <= to
    ensures |Buckets(from, to, g)| == BucketCount(from, to, g)
    ensures KeysTell(from, to, g) <==> Unmirrored(from, to, g)
  {
    hide Index, BucketKey, Start, Mirrored, StartOfBucket, Buckets, BucketCount, IsInBucket;
    BucketsShape(from, to, g);
    forall t, k | from <= t <= to && 0 <= k < BucketCount(from, to, g)
      ensures IsInBucket(t, Buckets(from, to, g)[k]) <==> Index(t, g) == Index(from, g) + k
      ensures BucketKey(t, g) == Buckets(from, to, g)[k].key <==>
              Index(t, g) == Index(from, g) + k || Mirrored(Index(t, g), Index(from, g) + k, g)
      ensures Index(from, g) <= Index(t, g) <= Index(to, g)
    {
      KeyFindsBucket(from, to, t, g, k);
      IndexGrows(from, t, g);
      IndexGrows(t, to, g);
    }
    forall i, j | KeysTell(from, to, g) && Index(from, g) <= i <= Index(to, g)
                  && Index(from, g) <= j < Index(from, g) + BucketCount(from, to, g)
      ensures !Mirrored(i, j, g)
    {
      var t := TimeInUnit(from, to, g, i);
      var k := j - Index(from, g);
      assert IsInBucket(t, Buckets(from, to, g)[k]) <==> BucketKey(t, g) == Buckets(from, to, g)[k].key;
      NotOwnMirror(j, g);
    }
  }

  lemma NotOwnMirror(i: int, g: Granularity)
    ensures !Mirrored(i, i, g)
  {
    hide YearOf, MonthPart, DayOfMonth, StartDay;
  }

  /** A bucket is mirrored to one other at most. */
  lemma OneMirror(i: int, j: int, k: int, g: Granularity)
    requires Mirrored(i, j, g) && Mirrored(i, k, g)
    ensures j == k
  {
    hide BucketKey, YearOf, MonthPart, DayOfMonth, StartDay, Start;
    KeysEqual(i, j, g);
    KeysEqual(i, k, g);
    KeysEqual(j, k, g);
  }

  lemma MirroredBack(i: int, j: int, g: Granularity)
    ensures Mirrored(i, j, g) <==> Mirrored(j, i, g)
  {
    hide YearOf, MonthPart, DayOfMonth, StartDay;
  }

  lemma NoMirrorEitherWay(first: int, last: int, g: Granularity, i: int, j: int)
    requires !HasMirror(first, last, g) && first <= i <= last && first <= j <= last
    ensures !Mirrored(i, j, g)
  {
    hide HasMirror, Mirrored;
    MirrorsInRange(first, last, g);
    MirroredBack(i, j, g);
    NotOwnMirror(i, g);
    assert !MirroredWithin(first, last, g, i, j) && !MirroredWithin(first, last, g, j, i);
  }

  lemma NoMirrorIsClear(first: int, last: int, n: nat, g: Granularity)
    requires first <= last && n <= last - first + 1
    ensures !HasMirror(first, last, g) ==> NoneMirrored(first, last, n, g)
    ensures n == last - first + 1 ==> (NoneMirrored(first, last, n, g) <==> !HasMirror(first, last, g))
  {
    hide HasMirror, Mirrored;
    if !HasMirror(first, last, g) {
      forall i, j | first <= i <= last && first <= j < first + n
        ensures !Mirrored(i, j, g)
      {
        NoMirrorEitherWay(first, last, g, i, j);
      }
    } else {
      MirrorsInRange(first, last, g);
      var i, j :| MirroredWithin(first, last, g, i, j);
      assert Mirrored(i, j, g);
    }
  }

  /** Whether anything in the range is mirrored can be told from its first and last unit; below the cap exactly. */
  lemma UnmirroredRange(from: int, to: int, g: Granularity)
    requires from <= to
    ensures !HasMirror(Index(from, g), Index(to, g), g) ==> Unmirrored(from, to, g)
    ensures Index(to, g) - Index(from, g) < 4000 ==>
              (Unmirrored(from, to, g) <==> !HasMirror(Index(from, g), Index(to, g), g))
  {
    hide Index, HasMirror, NoneMirrored;
    IndexGrows(from, to, g);
    NoMirrorIsClear(Index(from, g), Index(to, g), BucketCount(from, to, g), g);
  }

  /** The keys of a chart are distinct exactly when no two of its buckets are mirrored. */
  lemma KeysDistinct(from: int, to: int, g: Granularity)
    ensures |Buckets(from, to, g)| == BucketCount(from, to, g)
    ensures (forall j, k :: 0 <= j < k < BucketCount(from, to, g) ==>
            Buckets(from, to, g)[j].key != Buckets(from, to, g)[k].key)
       <==> !HasMirror(Index(from, g), Index(from, g) + BucketCount(from, to, g) - 1, g)
  {
    hide Index, BucketKey, Start, Mirrored, StartOfBucket, Buckets, BucketCount, HasMirror;
    BucketsShape(from, to, g);
    var b, first := Buckets(from, to, g), Index(from, g);
    var last := first + |b| - 1;
    MirrorsInRange(first, last, g);
    forall j, k | 0 <= j < k < |b|
      ensures b[j].key == b[k].key <==> MirroredWithin(first, last, g, first + j, first + k)
    {
      KeysEqual(first + j, first + k, g);
    }
    if i, j :| MirroredWithin(first, last, g, i, j) {
      assert b[i - first].key == b[j - first].key;
    }
  }
}
