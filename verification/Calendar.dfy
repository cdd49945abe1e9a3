/**
  Civil time and the count of seconds since the Epoch: the formula of section 4.16 of POSIX.1-2017
  XBD against counting days one month and one year at a time.
 */
module Calendar {

  predicate Leap(y: int) {
    y % 4 == 0 && (y % 100 != 0 || y % 400 == 0)
  }

  /** Days of the year before its m-th month, m counted from 0, as timegm tabulates them. */
  function Cumulative(y: int, m: int): int {
    (if m <= 0 then 0 else if m == 1 then 31 else if m == 2 then 59 else if m == 3 then 90
     else if m == 4 then 120 else if m == 5 then 151 else if m == 6 then 181 else if m == 7 then 212
     else if m == 8 then 243 else if m == 9 then 273 else if m == 10 then 304 else 334)
    + if m > 1 && Leap(y) then 1 else 0
  }

  /** The days of the formula, for `year` years since 1900 and `yday` days since January 1. */
  function PosixDays(year: int, yday: int): int {
    yday + (year - 70) * 365 + (year - 69) / 4 - (year - 1) / 100 + (year + 299) / 400
  }

  /** timegm, which brings months out of range into range and is linear in the rest. */
  function Timegm(y: int, mon: int, day: int, hour: int, min: int, sec: int): int {
    var yy, m := y + (mon - 1) / 12, (mon - 1) % 12;
    PosixDays(yy - 1900, Cumulative(yy, m) + day - 1) * 86400 + hour * 3600 + min * 60 + sec
  }

  // ---------------------------------------------------------------------------
  // Counting

  function YearLength(y: int): int {
    if Leap(y) then 366 else 365
  }

  function MonthLength(y: int, m: int): int {
    if m == 2 then (if Leap(y) then 29 else 28)
    else if m == 4 || m == 6 || m == 9 || m == 11 then 30
    else 31
  }

  function DaysBeforeYear(y: int): nat
    requires y >= 1970
    decreases y
  {
    if y == 1970 then 0 else DaysBeforeYear(y - 1) + YearLength(y - 1)
  }

  function DaysBeforeMonth(y: int, m: int): nat
    requires 1 <= m <= 12
    decreases m
  {
    if m == 1 then 0 else DaysBeforeMonth(y, m - 1) + MonthLength(y, m - 1)
  }

  datatype Civil = Civil(y: int, m: int, d: int, hour: int, min: int, sec: int, nano: int)
  {
    predicate Valid() {
      && y >= 1970 && 1 <= m <= 12 && 1 <= d <= MonthLength(y, m)
      && 0 <= hour < 24 && 0 <= min < 60 && 0 <= sec < 60 && 0 <= nano < 1_000_000_000
    }

    function Days(): nat
      requires Valid()
    {
      DaysBeforeYear(y) + DaysBeforeMonth(y, m) + d - 1
    }

    function Seconds(): nat
      requires Valid()
    {
      Days() * 86400 + hour * 3600 + min * 60 + sec
    }

    function Nanos(): nat
      requires Valid()
    {
      Seconds() * 1_000_000_000 + nano
    }
  }

  lemma {:induction false} YearsCounted(y: int)
    requires y >= 1970
    ensures PosixDays(y - 1900, 0) == DaysBeforeYear(y)
    decreases y
  {
    if y > 1970 {
      YearsCounted(y - 1);
      LeapStep(y - 1);
    }
  }

  lemma Step4(y: int)
    ensures (y - 1968) / 4 - (y - 1969) / 4 == if y % 4 == 0 then 1 else 0
  {
  }

  lemma Step100(y: int)
    ensures (y - 1900) / 100 - (y - 1901) / 100 == if y % 100 == 0 then 1 else 0
  {
  }

  lemma Step400(y: int)
    ensures (y - 1600) / 400 - (y - 1601) / 400 == if y % 400 == 0 then 1 else 0
  {
  }

  lemma CenturiesAreFourths(y: int)
    ensures y % 100 == 0 ==> y % 4 == 0
    ensures y % 400 == 0 ==> y % 100 == 0
  {
  }

  lemma LeapStep(y: int)
    ensures PosixDays(y + 1 - 1900, 0) == PosixDays(y - 1900, 0) + YearLength(y)
  {
    Step4(y);
    Step100(y);
    Step400(y);
    CenturiesAreFourths(y);
    var four, hundred, all := y % 4 == 0, y % 100 == 0, y % 400 == 0;
    var before := PosixDays(y - 1900, 0);
    assert PosixDays(y + 1 - 1900, 0)
        == before + 365 + (if four then 1 else 0) - (if hundred then 1 else 0) + if all then 1 else 0;
    hide PosixDays;
  }

  lemma {:induction false} MonthsCounted(y: int, m: int)
    requires 1 <= m <= 12
    ensures Cumulative(y, m - 1) == DaysBeforeMonth(y, m)
    decreases m
  {
    if m > 1 {
      MonthsCounted(y, m - 1);
    }
  }

  /** On valid calendar times the formula counts days. */
  lemma TimegmCounts(c: Civil)
    requires c.Valid()
    ensures Timegm(c.y, c.m, c.d, c.hour, c.min, c.sec) == c.Seconds()
  {
    hide Leap, Cumulative, DaysBeforeYear, DaysBeforeMonth;
    YearsCounted(c.y);
    MonthsCounted(c.y, c.m);
    assert (c.m - 1) / 12 == 0 && (c.m - 1) % 12 == c.m - 1;
  }

  // ---------------------------------------------------------------------------
  // Order

  predicate Earlier(a: Civil, b: Civil) {
    || a.y < b.y
    || (a.y == b.y && (a.m < b.m || (a.m == b.m && (a.d < b.d || (a.d == b.d && EarlierInDay(a, b))))))
  }

  predicate EarlierInDay(a: Civil, b: Civil) {
    || a.hour < b.hour
    || (a.hour == b.hour
        && (a.min < b.min || (a.min == b.min && (a.sec < b.sec || (a.sec == b.sec && a.nano < b.nano)))))
  }

  lemma {:induction false} YearsClimb(a: int, b: int)
    requires 1970 <= a < b
    ensures DaysBeforeYear(a) + YearLength(a) <= DaysBeforeYear(b)
    decreases b
  {
    if a < b - 1 {
      YearsClimb(a, b - 1);
    }
  }

  lemma {:induction false} MonthsClimb(y: int, a: int, b: int)
    requires 1 <= a < b <= 12
    ensures DaysBeforeMonth(y, a) + MonthLength(y, a) <= DaysBeforeMonth(y, b)
    decreases b
  {
    hide Leap;
    if a < b - 1 {
      MonthsClimb(y, a, b - 1);
    }
  }

  lemma MonthsFitYear(y: int, m: int)
    requires 1 <= m <= 12
    ensures DaysBeforeMonth(y, m) + MonthLength(y, m) <= YearLength(y)
  {
    MonthsCounted(y, m);
    hide DaysBeforeMonth;
  }

  lemma DaysClimb(a: Civil, b: Civil)
    requires a.Valid() && b.Valid()
    requires a.y < b.y || (a.y == b.y && (a.m < b.m || (a.m == b.m && a.d < b.d)))
    ensures a.Days() < b.Days()
  {
    hide DaysBeforeYear, DaysBeforeMonth, YearLength, MonthLength;
    if a.y < b.y {
      MonthsFitYear(a.y, a.m);
      YearsClimb(a.y, b.y);
    } else if a.m < b.m {
      MonthsClimb(a.y, a.m, b.m);
    }
  }

  /** Later on the calendar is more nanoseconds, so distinct times have distinct counts. */
  lemma NanosClimb(a: Civil, b: Civil)
    requires a.Valid() && b.Valid() && Earlier(a, b)
    ensures a.Nanos() < b.Nanos()
  {
    hide DaysBeforeYear, DaysBeforeMonth, MonthLength;
    if a.y == b.y && a.m == b.m && a.d == b.d {
      assert a.Days() == b.Days();
    } else {
      DaysClimb(a, b);
      hide Civil.Days;
      assert a.Days() + 1 <= b.Days();
    }
  }

  lemma EpochIsZero()
    ensures var epoch := Civil(1970, 1, 1, 0, 0, 0, 0);
            epoch.Valid() && epoch.Nanos() == 0
  {
  }

  /** The Epoch is the only time that counts as 0, the mark of "no timestamp". */
  lemma OnlyEpochIsZero(c: Civil)
    requires c.Valid()
    ensures c.Nanos() == 0 <==> c == Civil(1970, 1, 1, 0, 0, 0, 0)
  {
    var epoch := Civil(1970, 1, 1, 0, 0, 0, 0);
    EpochIsZero();
    hide Civil.Nanos;
    if c != epoch {
      NanosClimb(epoch, c);
    }
  }

  /** Through the year 2261 the count fits 64 signed bits. */
  lemma FitsInt64(c: Civil)
    requires c.Valid() && c.y <= 2261
    ensures c.Nanos() < 0x8000_0000_0000_0000
  {
    hide DaysBeforeYear, DaysBeforeMonth, YearLength, MonthLength;
    MonthsFitYear(c.y, c.m);
    YearsClimb(c.y, 2262);
    YearsCounted(2262);
    assert c.Days() < 106651;
    assert c.Seconds() < 106651 * 86400;
  }
}
