/** UTC calendar floors over Unix seconds, in the proleptic Gregorian calendar.
    Days are numbered from 1970-01-01 and months from January of year 0, both over all integers. */
module Calendar {
  import opened Metrics

  const SECONDS_PER_DAY: int := 86_400

  /** Appendix C of RFC 3339. */
  predicate IsLeap(y: int) {
    y % 4 == 0 && (y % 100 != 0 || y % 400 == 0)
  }

  /** Section 5.7 of RFC 3339. */
  function MonthLength(y: int, m: int): (n: int)
    requires 1 <= m <= 12
    ensures 28 <= n <= 31
  {
    if m == 2 then (if IsLeap(y) then 29 else 28)
    else if m == 4 || m == 6 || m == 9 || m == 11 then 30
    else 31
  }

  /** The day number of January 1 of year `y`. */
  function YearStart(y: int): int {
    365 * (y - 1) + (y - 1) / 4 - (y - 1) / 100 + (y - 1) / 400 - 719_162
  }

  /** Days of year `y` before month `m`. */
  function DaysBefore(y: int, m: int): (d: int)
    requires 1 <= m <= 13
    decreases m
  {
    if m == 1 then 0 else DaysBefore(y, m - 1) + MonthLength(y, m - 1)
  }

  function YearIndex(i: int): int { i / 12 }
  function MonthInYear(i: int): int { i % 12 + 1 }

  /** The day number of the first of month `i`. */
  function MonthStart(i: int): int {
    YearStart(YearIndex(i)) + DaysBefore(YearIndex(i), MonthInYear(i))
  }

  lemma LeapStep(y: int)
    ensures y / 4 - (y - 1) / 4 == if y % 4 == 0 then 1 else 0
    ensures y / 100 - (y - 1) / 100 == if y % 100 == 0 then 1 else 0
    ensures y / 400 - (y - 1) / 400 == if y % 400 == 0 then 1 else 0
  {}

  lemma YearLength(y: int)
    ensures YearStart(y + 1) - YearStart(y) == if IsLeap(y) then 366 else 365
  {
    LeapStep(y);
    LeapNests(y);
  }

  lemma LeapNests(y: int)
    ensures y % 400 == 0 ==> y % 100 == 0
    ensures y % 100 == 0 ==> y % 4 == 0
  {}

  lemma DaysInYear(y: int)
    ensures DaysBefore(y, 13) == YearStart(y + 1) - YearStart(y)
  {
    YearLength(y);
    var quarter := DaysBefore(y, 4);
    assert DaysBefore(y, 7) == quarter + 91;
    assert DaysBefore(y, 10) == quarter + 183;
    assert DaysBefore(y, 13) == quarter + 275;
  }

  /** Consecutive months abut: month `i` has exactly the days RFC 3339 gives it. */
  lemma MonthStep(i: int)
    ensures MonthStart(i + 1) - MonthStart(i) == MonthLength(YearIndex(i), MonthInYear(i))
  {
    if MonthInYear(i) == 12 {
      DaysInYear(YearIndex(i));
      assert YearIndex(i + 1) == YearIndex(i) + 1 && MonthInYear(i + 1) == 1;
    } else {
      assert YearIndex(i + 1) == YearIndex(i) && MonthInYear(i + 1) == MonthInYear(i) + 1;
    }
  }

  lemma {:induction false} MonthStartMonotone(i: int, j: int)
    requires i <= j
    ensures MonthStart(i) + 28 * (j - i) <= MonthStart(j)
    decreases j - i
  {
    hide MonthStart, MonthLength;
    if i < j {
      MonthStep(j - 1);
      MonthStartMonotone(i, j - 1);
    }
  }

  lemma JanuaryFirst(y: int)
    ensures MonthStart(12 * y) == YearStart(y)
  {
    assert YearIndex(12 * y) == y && MonthInYear(12 * y) == 1;
  }

  /** The year that contains a day, by an estimate that is off by at most one. */
  function YearOfDay(d: int): (y: int)
    ensures YearStart(y) <= d < YearStart(y + 1)
  {
    var guess := (400 * (d + 719_162)) / 146_097 + 1;
    if d < YearStart(guess) then YearLength(guess - 1); guess - 1
    else if YearStart(guess + 1) <= d then YearLength(guess + 1); guess + 1
    else guess
  }

  /** The last month of year `y`, from `m` down, that starts on or before day `d`. */
  function MonthFrom(d: int, y: int, m: int): (r: int)
    requires 1 <= m <= 12
    requires YearStart(y) <= d < YearStart(y) + DaysBefore(y, m + 1)
    ensures 1 <= r <= m
    ensures YearStart(y) + DaysBefore(y, r) <= d < YearStart(y) + DaysBefore(y, r + 1)
    decreases m
  {
    if YearStart(y) + DaysBefore(y, m) <= d then m else MonthFrom(d, y, m - 1)
  }

  function MonthInYearOfDay(d: int): (m: int)
    ensures 1 <= m <= 12
  {
    DaysInYear(YearOfDay(d));
    MonthFrom(d, YearOfDay(d), 12)
  }

  /** The month that contains a day. */
  function MonthOfDay(d: int): int {
    12 * YearOfDay(d) + MonthInYearOfDay(d) - 1
  }

  lemma MonthContains(d: int)
    ensures MonthStart(MonthOfDay(d)) <= d < MonthStart(MonthOfDay(d) + 1)
  {
    hide YearStart, DaysBefore, YearOfDay, YearIndex, MonthInYear, MonthLength;
    var y, m := YearOfDay(d), MonthInYearOfDay(d);
    DaysInYear(y);
    MonthIndexSplit(y, m);
    MonthStep(12 * y + m - 1);
    assert DaysBefore(y, m + 1) == DaysBefore(y, m) + MonthLength(y, m) by {
      DaysBeforeStep(y, m);
    }
  }

  lemma DaysBeforeStep(y: int, m: int)
    requires 1 <= m <= 12
    ensures DaysBefore(y, m + 1) == DaysBefore(y, m) + MonthLength(y, m)
  {}

  lemma MonthIndexSplit(y: int, m: int)
    requires 1 <= m <= 12
    ensures YearIndex(12 * y + m - 1) == y && MonthInYear(12 * y + m - 1) == m
  {}

  lemma MonthOfDayUnique(d: int, i: int)
    requires MonthStart(i) <= d < MonthStart(i + 1)
    ensures MonthOfDay(d) == i
  {
    hide MonthStart, MonthOfDay;
    MonthContains(d);
    var j := MonthOfDay(d);
    if j < i {
      MonthStartMonotone(j + 1, i);
    } else if i < j {
      MonthStartMonotone(i + 1, j);
    }
  }

  lemma MonthOfDayMonotone(d: int, e: int)
    requires d <= e
    ensures MonthOfDay(d) <= MonthOfDay(e)
  {
    hide MonthStart, MonthOfDay;
    MonthContains(d);
    MonthContains(e);
    if MonthOfDay(e) < MonthOfDay(d) {
      MonthStartMonotone(MonthOfDay(e) + 1, MonthOfDay(d));
    }
  }

  lemma YearOfDayIsMonthYear(d: int)
    ensures YearOfDay(d) == YearIndex(MonthOfDay(d))
  {
    hide YearStart, MonthStart, YearIndex, MonthInYearOfDay;
    MonthIndexSplit(YearOfDay(d), MonthInYearOfDay(d));
  }

  function DayOf(ts: nat): nat { ts / SECONDS_PER_DAY }

  function DayBucket(ts: nat): nat { DayOf(ts) * SECONDS_PER_DAY }

  lemma Epoch()
    ensures YearStart(1970) == 0
  {}

  lemma AfterEpoch(d: nat)
    ensures MonthOfDay(d) >= 12 * 1970
    ensures 0 <= MonthStart(MonthOfDay(d)) <= d
    ensures 0 <= YearStart(YearOfDay(d)) <= d
  {
    hide MonthStart, MonthOfDay, YearOfDay, YearStart;
    var i := MonthOfDay(d);
    MonthContains(d);
    JanuaryFirst(1970);
    Epoch();
    if i < 12 * 1970 {
      MonthStartMonotone(i + 1, 12 * 1970);
    }
    MonthStartMonotone(12 * 1970, i);
    YearOfDayIsMonthYear(d);
    JanuaryFirst(YearIndex(i));
    MonthStartMonotone(12 * 1970, 12 * YearIndex(i));
  }

  function MonthBucket(ts: nat): nat {
    AfterEpoch(DayOf(ts));
    MonthStart(MonthOfDay(DayOf(ts))) * SECONDS_PER_DAY
  }

  function YearBucket(ts: nat): nat {
    AfterEpoch(DayOf(ts));
    YearStart(YearOfDay(DayOf(ts))) * SECONDS_PER_DAY
  }

  lemma DayOfMidnight(d: nat)
    ensures DayOf(d * SECONDS_PER_DAY) == d
  {}

  /** Every bucket is a floor: at most its argument, idempotent, and monotone. */
  lemma BucketsAreFloors(a: nat, b: nat)
    ensures YearBucket(a) <= MonthBucket(a) <= DayBucket(a) <= a
    ensures DayBucket(DayBucket(a)) == DayBucket(a)
    ensures MonthBucket(MonthBucket(a)) == MonthBucket(a)
    ensures YearBucket(YearBucket(a)) == YearBucket(a)
    ensures a <= b ==> DayBucket(a) <= DayBucket(b)
    ensures a <= b ==> MonthBucket(a) <= MonthBucket(b)
    ensures a <= b ==> YearBucket(a) <= YearBucket(b)
  {
    hide MonthStart, MonthOfDay, YearOfDay, YearStart;
    var d := DayOf(a);
    AfterEpoch(d);
    MonthContains(d);
    var i, y := MonthOfDay(d), YearOfDay(d);
    YearOfDayIsMonthYear(d);
    JanuaryFirst(y);
    MonthStartMonotone(12 * y, i);
    DayOfMidnight(d);
    DayOfMidnight(MonthStart(i));
    MonthStep(i);
    MonthOfDayUnique(MonthStart(i), i);
    DayOfMidnight(YearStart(y));
    MonthStep(12 * y);
    MonthOfDayUnique(YearStart(y), 12 * y);
    YearOfDayIsMonthYear(YearStart(y));
    if a <= b {
      var e := DayOf(b);
      assert d <= e;
      AfterEpoch(e);
      MonthOfDayMonotone(d, e);
      MonthStartMonotone(i, MonthOfDay(e));
      YearOfDayIsMonthYear(e);
      JanuaryFirst(YearOfDay(e));
      MonthStartMonotone(12 * y, 12 * YearOfDay(e));
    }
  }

  /** The buckets nest: a day lies in one month and a month in one year. */
  lemma BucketsNest(a: nat)
    ensures MonthBucket(DayBucket(a)) == MonthBucket(a)
    ensures YearBucket(DayBucket(a)) == YearBucket(a)
    ensures YearBucket(MonthBucket(a)) == YearBucket(a)
  {
    hide MonthStart, MonthOfDay, YearOfDay, YearStart;
    var d := DayOf(a);
    AfterEpoch(d);
    MonthContains(d);
    var i := MonthOfDay(d);
    DayOfMidnight(d);
    DayOfMidnight(MonthStart(i));
    MonthStep(i);
    MonthOfDayUnique(MonthStart(i), i);
    YearOfDayIsMonthYear(d);
    YearOfDayIsMonthYear(MonthStart(i));
  }

  datatype Bucket = Day | Month | Year

  function BucketOf(b: Bucket, ts: nat): nat {
    match b
    case Day => DayBucket(ts)
    case Month => MonthBucket(ts)
    case Year => YearBucket(ts)
  }

  /** Two moments share a floor exactly when they lie on one day, in one month, in one year. */
  lemma FloorsAreDates(a: nat, b: nat)
    ensures DayBucket(a) == DayBucket(b) <==> DayOf(a) == DayOf(b)
    ensures MonthBucket(a) == MonthBucket(b) <==> MonthOfDay(DayOf(a)) == MonthOfDay(DayOf(b))
    ensures YearBucket(a) == YearBucket(b) <==> YearOfDay(DayOf(a)) == YearOfDay(DayOf(b))
  {
    hide MonthStart, MonthOfDay, YearStart, YearOfDay;
    var d, e := DayOf(a), DayOf(b);
    var i, j := MonthOfDay(d), MonthOfDay(e);
    AfterEpoch(d);
    AfterEpoch(e);
    if i < j {
      MonthStartMonotone(i, j);
    } else if j < i {
      MonthStartMonotone(j, i);
    }
    YearStartInjective(YearOfDay(d), YearOfDay(e));
  }

  lemma YearStartInjective(y: int, z: int)
    ensures YearStart(y) == YearStart(z) ==> y == z
  {
    hide YearStart, MonthStart;
    JanuaryFirst(y);
    JanuaryFirst(z);
    if y < z {
      MonthStartMonotone(12 * y, 12 * z);
    } else if z < y {
      MonthStartMonotone(12 * z, 12 * y);
    }
  }

  /** Two moments in one bucket of any size lie in one calendar year. */
  lemma SameBucketSameYear(b: Bucket, a: nat, c: nat)
    requires BucketOf(b, a) == BucketOf(b, c)
    ensures YearBucket(a) == YearBucket(c)
  {
    BucketsNest(a);
    BucketsNest(c);
  }

  /** The same day of the month, `months` earlier, clamped to that month's last day. */
  function DayMonthsBefore(d: int, months: nat): int {
    var i := MonthOfDay(d);
    var j := i - months;
    var dayOfMonth := d - MonthStart(i);
    var last := MonthLength(YearIndex(j), MonthInYear(j)) - 1;
    MonthStart(j) + if dayOfMonth <= last then dayOfMonth else last
  }

  lemma DayMonthsBeforeMonth(d: int, months: nat)
    ensures MonthOfDay(DayMonthsBefore(d, months)) == MonthOfDay(d) - months
  {
    hide MonthStart, MonthOfDay;
    var j := MonthOfDay(d) - months;
    MonthContains(d);
    MonthStep(j);
    MonthOfDayUnique(DayMonthsBefore(d, months), j);
  }

  /** The first and last year the date library can represent. */
  const MIN_YEAR: int := -262_143
  const MAX_YEAR: int := 262_142

  predicate Representable(ts: nat) {
    DayOf(ts) < YearStart(MAX_YEAR + 1)
  }

  /** Whole months between 1970-01 and the month of `ts`. */
  function MonthsSinceEpoch(ts: nat): nat {
    AfterEpoch(DayOf(ts));
    MonthOfDay(DayOf(ts)) - 12 * 1970
  }

  /** Does going back `months` months leave the representable years? */
  predicate FallsOff(ts: nat, months: nat) {
    DayFallsOff(DayOf(ts), months)
  }

  predicate DayFallsOff(d: int, months: nat) {
    months > 0x7FFF_FFFF || MonthOfDay(d) - months < 12 * MIN_YEAR
  }

  /** The day the date library sees: from 2^63 up the count is taken as negative, which for the last few
      of them is a day before 1970. */
  function LibraryDay(ts: nat): Option<int> {
    if Representable(ts) then Some(DayOf(ts))
    else if ts >= U64_LIMIT / 2 && (ts - U64_LIMIT) / SECONDS_PER_DAY >= YearStart(MIN_YEAR) then
      Some((ts - U64_LIMIT) / SECONDS_PER_DAY)
    else None
  }

  /** Midnight of that day as an unsigned 64-bit count: a day before 1970 is negative and wraps.
      Outside the representable years a month counts for 30 days and the result stops at zero. */
  function SubtractMonths(ts: nat, months: nat): int {
    var day := LibraryDay(ts);
    if day.Some? && !DayFallsOff(day.value, months) then
      var s := DayMonthsBefore(day.value, months) * SECONDS_PER_DAY;
      if s >= 0 then s else s + U64_LIMIT
    else
      var back := months * 30 * SECONDS_PER_DAY;
      if back <= ts then ts - back else 0
  }

  lemma SubtractMonthsSign(ts: nat, months: nat)
    ensures DayMonthsBefore(DayOf(ts), months) >= 0 <==> months <= MonthsSinceEpoch(ts)
  {
    hide MonthStart, MonthOfDay, DayMonthsBefore;
    var e := DayMonthsBefore(DayOf(ts), months);
    DayMonthsBeforeMonth(DayOf(ts), months);
    JanuaryFirst(1970);
    if e >= 0 {
      AfterEpoch(e);
    } else if MonthOfDay(e) >= 12 * 1970 {
      MonthContains(e);
      MonthStartMonotone(12 * 1970, MonthOfDay(e));
    }
  }

  /** Going further back in months, or starting earlier, never lands later. */
  lemma DayMonthsBeforeMonotone(d: int, e: int, m: nat, n: nat)
    requires d <= e && n <= m
    ensures DayMonthsBefore(d, m) <= DayMonthsBefore(e, n)
  {
    hide MonthStart, MonthOfDay;
    MonthContains(d);
    MonthContains(e);
    MonthOfDayMonotone(d, e);
    var i, j := MonthOfDay(d) - m, MonthOfDay(e) - n;
    MonthStep(i);
    if i < j {
      MonthStartMonotone(i + 1, j);
    }
  }

  lemma DayMonthsBeforeZero(d: int)
    ensures DayMonthsBefore(d, 0) == d
  {
    hide MonthStart, MonthOfDay;
    MonthContains(d);
    MonthStep(MonthOfDay(d));
  }

  /** A day the date library accepts is never far enough before 1970 to wrap onto a real moment. */
  lemma EarliestDay(d: int, months: nat)
    requires !DayFallsOff(d, months)
    ensures DayMonthsBefore(d, months) >= YearStart(MIN_YEAR)
  {
    hide MonthOfDay, MonthStart;
    MonthContains(d);
    JanuaryFirst(MIN_YEAR);
    MonthStartMonotone(12 * MIN_YEAR, MonthOfDay(d) - months);
  }

  /** The result is an earlier moment exactly when it stays in or after 1970-01, or falls so far back
      that the 30-day rule takes over. In between, the unsigned cast wraps, and the "cutoff" lies
      after every representable timestamp. */
  lemma SubtractMonthsEarlierIff(ts: nat, months: nat)
    requires Representable(ts)
    ensures SubtractMonths(ts, months) <= ts <==> months <= MonthsSinceEpoch(ts) || FallsOff(ts, months)
    ensures !(SubtractMonths(ts, months) <= ts) ==>
              forall t: nat :: Representable(t) ==> t < SubtractMonths(ts, months)
  {
    hide MonthOfDay, MonthStart, DayMonthsBefore, MonthsSinceEpoch, DayFallsOff;
    SubtractMonthsSign(ts, months);
    var d := DayOf(ts);
    assert YearStart(MIN_YEAR) > -100_000_000 && YearStart(MAX_YEAR + 1) < 100_000_000;
    if !FallsOff(ts, months) {
      EarliestDay(d, months);
    }
    if months <= MonthsSinceEpoch(ts) {
      DayMonthsBeforeMonotone(d, d, months, 0);
      DayMonthsBeforeZero(d);
    }
  }

  /** Cutoffs move forward with the clock, and back with the months kept, while they stay after 1970-01. */
  lemma SubtractMonthsMonotone(a: nat, b: nat, m: nat, n: nat)
    requires Representable(b)
    requires a <= b && n <= m <= MonthsSinceEpoch(a)
    ensures 0 <= SubtractMonths(a, m) <= SubtractMonths(b, n)
  {
    hide MonthOfDay, MonthStart, DayMonthsBefore, YearStart;
    SubtractMonthsSign(a, m);
    DayMonthsBeforeMonotone(DayOf(a), DayOf(b), m, n);
    NeverFallsOff(a, m);
    MonthOfDayMonotone(DayOf(a), DayOf(b));
    NeverFallsOff(b, n);
  }

  lemma NeverFallsOff(ts: nat, months: nat)
    requires Representable(ts) && months <= MonthsSinceEpoch(ts)
    ensures !FallsOff(ts, months)
  {
    hide MonthOfDay, MonthStart;
    var i := MonthOfDay(DayOf(ts));
    MonthContains(DayOf(ts));
    JanuaryFirst(MAX_YEAR + 1);
    if i >= 12 * (MAX_YEAR + 1) {
      MonthStartMonotone(12 * (MAX_YEAR + 1), i);
    }
  }

  /** Keeping one hundred years of yearly records, asked for in March 2024, sets the cutoff in the
      far future instead of in 1924. */
  lemma CenturyOfRetentionWraps()
    ensures SubtractMonths(1_711_890_000, 1200) > 1_711_890_000
  {
    assert DayOf(1_711_890_000) == 19_813;
    assert YearOfDay(19_813) == 2024;
    YearOfDayIsMonthYear(19_813);
    assert MonthsSinceEpoch(1_711_890_000) < 1200;
    SubtractMonthsEarlierIff(1_711_890_000, 1200);
  }

  /** The result is always a 64-bit count, wrapped or not, whatever the 64-bit timestamp. */
  lemma SubtractMonthsIsU64(ts: u64, months: nat)
    ensures 0 <= SubtractMonths(ts, months) < U64_LIMIT
  {
    hide MonthOfDay, MonthStart, DayMonthsBefore, DayFallsOff;
    assert YearStart(MIN_YEAR) > -100_000_000 && YearStart(MAX_YEAR + 1) < 100_000_000;
    var day := LibraryDay(ts);
    if day.Some? && !DayFallsOff(day.value, months) {
      EarliestDay(day.value, months);
      DayMonthsBeforeMonotone(day.value, day.value, months, 0);
      DayMonthsBeforeZero(day.value);
    }
  }

  /** The anchors the repository's tests use: 13:00 on 2024-03-31 and the starts of its day, month and year. */
  lemma KnownDates()
    ensures YearStart(1970) == 0
    ensures DayBucket(1_711_890_000) == 1_711_843_200
    ensures MonthBucket(1_711_890_000) == 1_709_251_200
    ensures YearBucket(1_711_890_000) == 1_704_067_200
  {
    assert DayOf(1_711_890_000) == 19_813;
    assert YearOfDay(19_813) == 2024 && YearStart(2024) == 19_723;
    MonthIndexSplit(2024, 3);
    MonthStep(12 * 2024 + 2);
    assert DaysBefore(2024, 3) == 60 by {
      DaysBeforeStep(2024, 2);
      DaysBeforeStep(2024, 1);
    }
    assert MonthStart(12 * 2024 + 2) == 19_783;
    MonthOfDayUnique(19_813, 12 * 2024 + 2);
  }

  /** The first days of the months of 2023, and of years around the century rule. */
  lemma KnownMonths()
    ensures MonthStart(12 * 2023) == 19_358 && MonthStart(12 * 2023 + 1) == 19_389
    ensures MonthStart(12 * 2023 + 2) == 19_417 && MonthStart(12 * 2023 + 3) == 19_448
    ensures MonthStart(12 * 2023 + 4) == 19_478 && MonthStart(12 * 2023 + 5) == 19_509
    ensures MonthStart(12 * 2023 + 6) == 19_539 && MonthStart(12 * 2023 + 7) == 19_570
    ensures MonthStart(12 * 2023 + 8) == 19_601 && MonthStart(12 * 2023 + 9) == 19_631
    ensures MonthStart(12 * 2023 + 10) == 19_662 && MonthStart(12 * 2023 + 11) == 19_692
    ensures MonthStart(12 * 2024) == 19_723
    ensures YearStart(1900) == -25_567 && YearStart(1901) == -25_202
    ensures YearStart(2000) == 10_957 && YearStart(2001) == 11_323
  {
    hide MonthStart;
    JanuaryFirst(2023);
    MonthStep(12 * 2023);
    MonthStep(12 * 2023 + 1);
    MonthStep(12 * 2023 + 2);
    MonthStep(12 * 2023 + 3);
    MonthStep(12 * 2023 + 4);
    MonthStep(12 * 2023 + 5);
    MonthStep(12 * 2023 + 6);
    MonthStep(12 * 2023 + 7);
    MonthStep(12 * 2023 + 8);
    MonthStep(12 * 2023 + 9);
    MonthStep(12 * 2023 + 10);
    MonthStep(12 * 2023 + 11);
  }

  /** How many days of its month precede a day. */
  function DayInMonth(d: int): int {
    d - MonthStart(MonthOfDay(d))
  }

  /** While it stays after 1970-01 the result is the midnight of the same day of the month, or of the
      month's last day if that month is too short. */
  lemma SubtractMonthsDay(ts: nat, months: nat)
    requires Representable(ts) && months <= MonthsSinceEpoch(ts)
    ensures var r := SubtractMonths(ts, months);
      && r >= 0 && r % SECONDS_PER_DAY == 0
      && var day, i := DayInMonth(DayOf(ts)), MonthOfDay(DayOf(r));
      var last := MonthLength(YearIndex(i), MonthInYear(i)) - 1;
      && DayInMonth(DayOf(r)) == if day <= last then day else last
  {
    hide MonthOfDay, MonthStart, YearStart, MonthLength;
    SubtractMonthsSign(ts, months);
    NeverFallsOff(ts, months);
    DayMonthsBeforeMonth(DayOf(ts), months);
    DayOfMidnight(DayMonthsBefore(DayOf(ts), months));
  }

  /** Where the date library has no answer: a month counts for thirty days, down to zero. Timestamps whose
      signed cast is a day before 1970 are dates to it, and their results wrap back to unsigned. */
  lemma SubtractMonthsOutside(ts: u64, months: nat)
    ensures (!Representable(ts) && ts < 0x8000_0000_0000_0000) || (Representable(ts) && FallsOff(ts, months)) ==>
              SubtractMonths(ts, months) == if months * 2_592_000 <= ts then ts - months * 2_592_000 else 0
    ensures var d := (ts - U64_LIMIT) / SECONDS_PER_DAY;
      ts >= 0x8000_0000_0000_0000 && d >= YearStart(MIN_YEAR) && !DayFallsOff(d, months)
      ==> SubtractMonths(ts, months) == DayMonthsBefore(d, months) * SECONDS_PER_DAY + U64_LIMIT
  {
    hide MonthOfDay, MonthStart, DayMonthsBefore, DayFallsOff;
    assert YearStart(MIN_YEAR) > -100_000_000 && YearStart(MAX_YEAR + 1) < 100_000_000;
    var d := (ts - U64_LIMIT) / SECONDS_PER_DAY;
    if ts >= 0x8000_0000_0000_0000 && d >= YearStart(MIN_YEAR) && !DayFallsOff(d, months) {
      DayMonthsBeforeMonotone(d, d, months, 0);
      DayMonthsBeforeZero(d);
    }
  }

  /** The date library knows the years -262143 to 262142 and subtracts at most 2^31 - 1 months. */
  lemma LibraryRange(ts: nat, d: int, months: nat)
    ensures Representable(ts) <==> YearOfDay(DayOf(ts)) <= 262_142
    ensures DayFallsOff(d, months) <==> months > 2_147_483_647 || YearIndex(MonthOfDay(d) - months) < -262_143
  {
    hide YearOfDay, MonthOfDay, YearStart, MonthStart;
    var y := YearOfDay(DayOf(ts));
    JanuaryFirst(y);
    JanuaryFirst(y + 1);
    JanuaryFirst(262_143);
    if y <= 262_142 {
      MonthStartMonotone(12 * (y + 1), 12 * 262_143);
    } else {
      MonthStartMonotone(12 * 262_143, 12 * y);
    }
  }

  /** One month before 2024-03-31 13:00 is 2024-02-29, twelve months before is 2023-03-31. */
  lemma KnownSubtractions()
    ensures SubtractMonths(1_711_890_000, 1) == 1_709_164_800
    ensures SubtractMonths(1_711_890_000, 12) == 1_680_220_800
  {
    hide MonthOfDay, MonthStart;
    LastOfMarch2024();
    KnownMonths();
    MonthStep(12 * 2024);
    MonthStep(12 * 2024 + 1);
    var d := 19_813;
    assert DayOf(1_711_890_000) == d;
    assert DayMonthsBefore(d, 1) == 19_782;
    assert DayMonthsBefore(d, 12) == 19_447;
    NeverFallsOff(1_711_890_000, 1);
    NeverFallsOff(1_711_890_000, 12);
  }

  lemma LastOfMarch2024()
    ensures Representable(1_711_890_000) && MonthOfDay(19_813) == 12 * 2024 + 2
    ensures MonthStart(12 * 2024 + 2) == 19_783
  {
    hide MonthOfDay, MonthStart;
    KnownMonths();
    MonthStep(12 * 2024);
    MonthStep(12 * 2024 + 1);
    MonthStep(12 * 2024 + 2);
    MonthOfDayUnique(19_813, 12 * 2024 + 2);
  }

  /** While the result stays after 1970-01 it lies exactly that many calendar months back. */
  lemma SubtractMonthsCount(ts: nat, months: nat)
    requires Representable(ts) && months <= MonthsSinceEpoch(ts)
    ensures SubtractMonths(ts, months) >= 0
    ensures MonthsSinceEpoch(SubtractMonths(ts, months)) == MonthsSinceEpoch(ts) - months
  {
    hide MonthOfDay, MonthStart, DayMonthsBefore, YearStart;
    SubtractMonthsSign(ts, months);
    NeverFallsOff(ts, months);
    DayMonthsBeforeMonth(DayOf(ts), months);
    DayOfMidnight(DayMonthsBefore(DayOf(ts), months));
  }
}
