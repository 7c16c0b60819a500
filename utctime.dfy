/// `time.gmtime` and `time.strftime("%Y-%m-%d %H:%M:%S", ...)` as the
/// uploaders use them to render `dateutc`.
///
/// The calendar is the one of "Seconds Since the Epoch" (IEEE Std 1003.1-2017,
/// Base Definitions, section 4.16): proleptic Gregorian, every day exactly
/// 86400 seconds, no leap seconds. `EpochSeconds` is that section's formula;
/// `Gmtime` is proved to be its inverse.
module UtcTime {
  import opened Results
  import Decimal

  /// A broken-down UTC time (the fields of `struct tm` that the rendering uses;
  /// `year` is the full year, i.e. `tm_year + 1900`, and `month` runs 1..12).
  datatype Tm = Tm(year: int, month: int, day: int, hour: int, minute: int, second: int)

  const SecondsPerDay := 86400

  predicate IsLeapYear(y: int)
  {
    y % 4 == 0 && (y % 100 != 0 || y % 400 == 0)
  }

  function DaysInYear(y: int): int
  {
    if IsLeapYear(y) then 366 else 365
  }

  function DaysInMonth(y: int, m: int): int
    requires 1 <= m <= 12
  {
    if m == 2 then (if IsLeapYear(y) then 29 else 28)
    else if m == 4 || m == 6 || m == 9 || m == 11 then 30
    else 31
  }

  /// Days of year `y` before the first of month `m`.
  function DaysBeforeMonth(y: int, m: int): int
    requires 1 <= m <= 12
  {
    var leap := if m > 2 && IsLeapYear(y) then 1 else 0;
    leap + (
      if m == 1 then 0 else if m == 2 then 31 else if m == 3 then 59
      else if m == 4 then 90 else if m == 5 then 120 else if m == 6 then 151
      else if m == 7 then 181 else if m == 8 then 212 else if m == 9 then 243
      else if m == 10 then 273 else if m == 11 then 304 else 334)
  }

  /// `tm_yday`: days since the first of January.
  function YearDay(tm: Tm): int
    requires 1 <= tm.month <= 12
  {
    DaysBeforeMonth(tm.year, tm.month) + tm.day - 1
  }

  /// The ranges `gmtime` guarantees for its fields.
  predicate Valid(tm: Tm)
  {
    && 1 <= tm.month <= 12
    && 1 <= tm.day <= DaysInMonth(tm.year, tm.month)
    && 0 <= tm.hour < 24
    && 0 <= tm.minute < 60
    && 0 <= tm.second < 60
  }

  /// The formula of section 4.16 with `tm_year = year - 1900`. Division is
  /// floor division; for `tm_year >= 69` it agrees with the C division the
  /// standard writes, and below that it continues the proleptic calendar.
  function EpochSeconds(tm: Tm): int
    requires 1 <= tm.month <= 12
  {
    var ty := tm.year - 1900;
    tm.second + tm.minute * 60 + tm.hour * 3600 + YearDay(tm) * 86400
      + (ty - 70) * 31536000 + ((ty - 69) / 4) * 86400
      - ((ty - 1) / 100) * 86400 + ((ty + 299) / 400) * 86400
  }

  // ---------------------------------------------------------------------
  // Day counts

  /// Leap years among 1..x (shifted by a constant for x <= 0).
  function LeapsThrough(x: int): int
  {
    x / 4 - x / 100 + x / 400
  }

  /// Days from 1970-01-01 to the first of January of year y.
  function DaysBeforeYear(y: int): int
  {
    365 * (y - 1970) + LeapsThrough(y - 1) - LeapsThrough(1969)
  }

  lemma LeapStep(y: int)
    ensures LeapsThrough(y) - LeapsThrough(y - 1) == if IsLeapYear(y) then 1 else 0
  {
    assert y / 4 - (y - 1) / 4 == if y % 4 == 0 then 1 else 0;
    assert y / 100 - (y - 1) / 100 == if y % 100 == 0 then 1 else 0;
    assert y / 400 - (y - 1) / 400 == if y % 400 == 0 then 1 else 0;
    assert y % 400 == 0 ==> y % 100 == 0 && y % 4 == 0;
    assert y % 100 == 0 ==> y % 4 == 0;
  }

  lemma DaysBeforeNextYear(y: int)
    ensures DaysBeforeYear(y + 1) == DaysBeforeYear(y) + DaysInYear(y)
  {
    LeapStep(y);
  }

  lemma {:induction false} DaysBeforeYearMonotone(a: int, b: int)
    requires a <= b
    ensures DaysBeforeYear(a) <= DaysBeforeYear(b)
    decreases b - a
  {
    if a < b {
      DaysBeforeYearMonotone(a, b - 1);
      DaysBeforeNextYear(b - 1);
    }
  }

  /// The Gregorian calendar repeats every 400 years, which hold 146097 days.
  lemma DaysBeforeYearCycles(y: int, q: int)
    ensures DaysBeforeYear(y + 400 * q) == DaysBeforeYear(y) + 146097 * q
  {
    var x := y - 1;
    assert (x + 400 * q) / 4 == x / 4 + 100 * q;
    assert (x + 400 * q) / 100 == x / 100 + 4 * q;
    assert (x + 400 * q) / 400 == x / 400 + q;
  }

  /// Days from 2000-01-01 to the first of January of year 2000 + k.
  function CycleDays(k: int): int
  {
    DaysBeforeYear(2000 + k) - DaysBeforeYear(2000)
  }

  lemma {:induction false} CycleDaysAtMost(k: nat)
    ensures CycleDays(k) <= 366 * k
  {
    if k > 0 {
      CycleDaysAtMost(k - 1);
      DaysBeforeNextYear(2000 + k - 1);
    }
  }

  /// The year within a 400-year cycle that holds day r of the cycle,
  /// searching upwards from a year k known not to be too late.
  function YearInCycle(r: int, k: int): (res: int)
    requires 0 <= r < 146097
    requires 0 <= k < 400 && CycleDays(k) <= r
    ensures 0 <= res < 400
    ensures CycleDays(res) <= r < CycleDays(res + 1)
    decreases 400 - k
  {
    if CycleDays(k + 1) <= r then
      assert CycleDays(400) == 146097;
      YearInCycle(r, k + 1)
    else
      k
  }

  /// The year holding day `days` (counted from 1970-01-01) and the day's
  /// index within that year.
  function YearOf(days: int): (res: (int, int))
    ensures DaysBeforeYear(res.0) + res.1 == days
    ensures 0 <= res.1 < DaysInYear(res.0)
  {
    var r := (days - DaysBeforeYear(2000)) % 146097;
    CycleDaysAtMost(r / 366);
    var k := YearInCycle(r, r / 366);
    YearOfCycle(days, k);
    (2000 + 400 * ((days - DaysBeforeYear(2000)) / 146097) + k, r - CycleDays(k))
  }

  /// Year k of the cycle holding `days` is year 2000 + 400 q + k.
  lemma YearOfCycle(days: int, k: int)
    requires 0 <= k < 400
    requires CycleDays(k) <= (days - DaysBeforeYear(2000)) % 146097 < CycleDays(k + 1)
    ensures var q := (days - DaysBeforeYear(2000)) / 146097;
      var r := (days - DaysBeforeYear(2000)) % 146097;
      && DaysBeforeYear(2000 + 400 * q + k) + (r - CycleDays(k)) == days
      && 0 <= r - CycleDays(k) < DaysInYear(2000 + 400 * q + k)
  {
    var n := days - DaysBeforeYear(2000);
    var q := n / 146097;
    var r := n % 146097;
    var y := 2000 + 400 * q + k;
    DaysBeforeYearCycles(2000 + k, q);
    DaysBeforeYearCycles(2000 + k + 1, q);
    assert DaysBeforeYear(y) == DaysBeforeYear(2000 + k) + 146097 * q;
    assert DaysBeforeYear(y + 1) == DaysBeforeYear(2000 + k + 1) + 146097 * q;
    DaysBeforeNextYear(y);
    assert DaysInYear(y) == CycleDays(k + 1) - CycleDays(k);
  }

  lemma MonthStep(y: int, m: int)
    requires 1 <= m < 12
    ensures DaysBeforeMonth(y, m + 1) == DaysBeforeMonth(y, m) + DaysInMonth(y, m)
  {
  }

  lemma {:induction false} DaysBeforeMonthMonotone(y: int, a: int, b: int)
    requires 1 <= a <= b <= 12
    ensures DaysBeforeMonth(y, a) <= DaysBeforeMonth(y, b)
    decreases b - a
  {
    if a < b {
      DaysBeforeMonthMonotone(y, a, b - 1);
      MonthStep(y, b - 1);
    }
  }

  /// The month holding day `yday` of year `y`, searching upwards from month m,
  /// and the day of that month.
  function MonthFrom(y: int, yday: int, m: int): (res: (int, int))
    requires 1 <= m <= 12 && DaysBeforeMonth(y, m) <= yday < DaysInYear(y)
    ensures 1 <= res.0 <= 12 && 1 <= res.1 <= DaysInMonth(y, res.0)
    ensures DaysBeforeMonth(y, res.0) + res.1 - 1 == yday
    decreases 12 - m
  {
    if m < 12 && DaysBeforeMonth(y, m + 1) <= yday then
      MonthFrom(y, yday, m + 1)
    else
      assert m < 12 ==> DaysBeforeMonth(y, m + 1) == DaysBeforeMonth(y, m) + DaysInMonth(y, m) by {
        if m < 12 { MonthStep(y, m); }
      }
      (m, yday - DaysBeforeMonth(y, m) + 1)
  }

  /// `time.gmtime(t)` for a whole number of seconds t.
  function Gmtime(t: int): Tm
  {
    var days := t / SecondsPerDay;
    var secs := t % SecondsPerDay;
    var (y, yday) := YearOf(days);
    var (m, d) := MonthFrom(y, yday, 1);
    Tm(y, m, d, secs / 3600, secs % 3600 / 60, secs % 60)
  }

  // ---------------------------------------------------------------------
  // Gmtime inverts the formula of section 4.16

  lemma EpochSecondsByDays(tm: Tm)
    requires 1 <= tm.month <= 12
    ensures EpochSeconds(tm)
         == (DaysBeforeYear(tm.year) + YearDay(tm)) * 86400 + tm.hour * 3600 + tm.minute * 60 + tm.second
  {
    var y := tm.year;
    assert (y - 1969) / 4 == (y - 1) / 4 - 492;
    assert (y - 1901) / 100 == (y - 1) / 100 - 19;
    assert (y - 1601) / 400 == (y - 1) / 400 - 4;
  }

  /// `gmtime(t)` is a valid broken-down time whose seconds since the Epoch are t.
  lemma GmtimeInverse(t: int)
    ensures Valid(Gmtime(t))
    ensures EpochSeconds(Gmtime(t)) == t
  {
    var tm := Gmtime(t);
    var days := t / SecondsPerDay;
    var secs := t % SecondsPerDay;
    var (y, yday) := YearOf(days);
    assert tm.year == y;
    assert YearDay(tm) == yday;
    assert DaysBeforeYear(y) + YearDay(tm) == days;
    ClockFields(secs);
    assert tm.hour * 3600 + tm.minute * 60 + tm.second == secs;
    EpochSecondsByDays(tm);
  }

  lemma ClockFields(secs: int)
    requires 0 <= secs < 86400
    ensures 0 <= secs / 3600 < 24 && 0 <= secs % 3600 / 60 < 60
    ensures secs / 3600 * 3600 + secs % 3600 / 60 * 60 + secs % 60 == secs
  {
  }

  /// Two valid broken-down times with the same seconds since the Epoch are equal.
  lemma EpochSecondsInjective(a: Tm, b: Tm)
    requires Valid(a) && Valid(b)
    requires EpochSeconds(a) == EpochSeconds(b)
    ensures a == b
  {
    EpochSecondsByDays(a);
    EpochSecondsByDays(b);
    var da := DaysBeforeYear(a.year) + YearDay(a);
    var db := DaysBeforeYear(b.year) + YearDay(b);
    var sa := a.hour * 3600 + a.minute * 60 + a.second;
    var sb := b.hour * 3600 + b.minute * 60 + b.second;
    DaysAndSeconds(da, sa, db, sb);
    ClockInjective(a, b);
    SameDayNumber(a, b);
  }

  /// A count of whole days and a time of day are recovered from their total.
  lemma DaysAndSeconds(da: int, sa: int, db: int, sb: int)
    requires 0 <= sa < 86400 && 0 <= sb < 86400
    requires da * 86400 + sa == db * 86400 + sb
    ensures da == db && sa == sb
  {
  }

  /// The time of day determines hour, minute and second.
  lemma ClockInjective(a: Tm, b: Tm)
    requires Valid(a) && Valid(b)
    requires a.hour * 3600 + a.minute * 60 + a.second == b.hour * 3600 + b.minute * 60 + b.second
    ensures a.hour == b.hour && a.minute == b.minute && a.second == b.second
  {
  }

  /// The day number since the Epoch determines year, month and day.
  lemma SameDayNumber(a: Tm, b: Tm)
    requires Valid(a) && Valid(b)
    requires DaysBeforeYear(a.year) + YearDay(a) == DaysBeforeYear(b.year) + YearDay(b)
    ensures a.year == b.year && a.month == b.month && a.day == b.day
  {
    YearDayBound(a);
    YearDayBound(b);
    if a.year != b.year {
      if a.year < b.year {
        LaterYearLaterDay(a, b);
      } else {
        LaterYearLaterDay(b, a);
      }
    }
    if a.month != b.month {
      if a.month < b.month {
        LaterMonthLaterDay(a, b);
      } else {
        LaterMonthLaterDay(b, a);
      }
    }
  }

  lemma LaterYearLaterDay(a: Tm, b: Tm)
    requires Valid(a) && Valid(b) && a.year < b.year
    ensures DaysBeforeYear(a.year) + YearDay(a) < DaysBeforeYear(b.year) + YearDay(b)
  {
    YearDayBound(a);
    DaysBeforeNextYear(a.year);
    DaysBeforeYearMonotone(a.year + 1, b.year);
  }

  lemma LaterMonthLaterDay(a: Tm, b: Tm)
    requires Valid(a) && Valid(b) && a.year == b.year && a.month < b.month
    ensures YearDay(a) < YearDay(b)
  {
    MonthStep(a.year, a.month);
    DaysBeforeMonthMonotone(a.year, a.month + 1, b.month);
  }

  lemma YearDayBound(tm: Tm)
    requires Valid(tm)
    ensures 0 <= YearDay(tm) < DaysInYear(tm.year)
  {
    if tm.month < 12 {
      MonthStep(tm.year, tm.month);
      DaysBeforeMonthMonotone(tm.year, tm.month + 1, 12);
    }
  }

  /// Every valid broken-down time is what `gmtime` returns for its seconds.
  lemma GmtimeOfEpochSeconds(tm: Tm)
    requires Valid(tm)
    ensures Gmtime(EpochSeconds(tm)) == tm
  {
    GmtimeInverse(EpochSeconds(tm));
    EpochSecondsInjective(Gmtime(EpochSeconds(tm)), tm);
  }

  // ---------------------------------------------------------------------
  // Range of the C library

  const Int64Min := -0x8000_0000_0000_0000
  const Int64Max := 0x7fff_ffff_ffff_ffff
  const IntMin := -0x8000_0000
  const IntMax := 0x7fff_ffff

  /// CPython converts the timestamp to a 64-bit `time_t` (OverflowError
  /// outside it) and glibc's `gmtime_r` fails with EOVERFLOW when
  /// `tm_year` does not fit in a C `int`.
  predicate Representable(t: int)
  {
    Int64Min <= t <= Int64Max && IntMin <= Gmtime(t).year - 1900 <= IntMax
  }

  /// CPython's `time.strftime` reads the struct_time back into C `int`s,
  /// the full year (`tm_year + 1900`) included, and raises OverflowError
  /// when it does not fit.
  predicate Renderable(tm: Tm)
  {
    IntMin <= tm.year <= IntMax
  }

  const Bound := 0x80_0000_0000_0000  // 2^55 seconds, over a billion years

  /// Every timestamp within 2^55 seconds of the Epoch is representable, and
  /// its broken-down time can be rendered.
  lemma RepresentableNearEpoch(t: int)
    requires -Bound <= t <= Bound
    ensures Representable(t)
    ensures Renderable(Gmtime(t))
  {
    var y := Gmtime(t).year;
    var days := t / SecondsPerDay;
    assert DaysBeforeYear(y) <= days < DaysBeforeYear(y + 1) by {
      DaysBeforeNextYear(y);
    }
    if y > IntMax {
      DaysBeforeYearMonotone(IntMax + 1, y);
      assert false;
    }
    if y - 1900 < IntMin {
      DaysBeforeYearMonotone(y + 1, 1900 + IntMin);
      assert false;
    }
  }

  // ---------------------------------------------------------------------
  // strftime("%Y-%m-%d %H:%M:%S")

  function Two(n: int): seq<char>
    requires 0 <= n < 100
  {
    [Decimal.DigitChar(n / 10), Decimal.DigitChar(n % 10)]
  }

  /// Everything after the year: "-MM-DD HH:MM:SS", always 15 characters.
  function Suffix(tm: Tm): (s: string)
    requires Valid(tm)
    ensures |s| == 15
  {
    "-" + Two(tm.month) + "-" + Two(tm.day) + " " + Two(tm.hour) + ":" + Two(tm.minute) + ":" + Two(tm.second)
  }

  /// The rendering. `%Y` is glibc's: the year in decimal without padding,
  /// with a leading minus sign for negative years.
  function Strftime(tm: Tm): string
    requires Valid(tm)
  {
    Decimal.IntToString(tm.year) + Suffix(tm)
  }

  function ParseTwo(s: string): Option<int>
    requires |s| == 2
  {
    if Decimal.IsDigit(s[0]) && Decimal.IsDigit(s[1])
    then Some(10 * Decimal.DigitValue(s[0]) + Decimal.DigitValue(s[1]))
    else None
  }

  /// Reads a "Y-MM-DD HH:MM:SS" string back into a broken-down time.
  function ParseTimestamp(s: string): Option<Tm>
  {
    if |s| < 15 then None
    else
      var p := |s| - 15;
      var year := Decimal.ParseInt(s[..p]);
      var month := ParseTwo(s[p + 1..p + 3]);
      var day := ParseTwo(s[p + 4..p + 6]);
      var hour := ParseTwo(s[p + 7..p + 9]);
      var minute := ParseTwo(s[p + 10..p + 12]);
      var second := ParseTwo(s[p + 13..p + 15]);
      if && s[p] == '-' && s[p + 3] == '-' && s[p + 6] == ' ' && s[p + 9] == ':' && s[p + 12] == ':'
         && year.Some? && month.Some? && day.Some? && hour.Some? && minute.Some? && second.Some?
      then
        var tm := Tm(year.value, month.value, day.value, hour.value, minute.value, second.value);
        if Valid(tm) then Some(tm) else None
      else None
  }

  lemma ParseTwoTwo(n: int)
    requires 0 <= n < 100
    ensures ParseTwo(Two(n)) == Some(n)
  {
  }

  /// The rendering loses nothing: parsing it gives back the broken-down time.
  lemma ParseStrftime(tm: Tm)
    requires Valid(tm)
    ensures ParseTimestamp(Strftime(tm)) == Some(tm)
  {
    var s := Strftime(tm);
    var p := |s| - 15;
    var suffix := Suffix(tm);
    assert s[..p] == Decimal.IntToString(tm.year);
    assert s[p..] == suffix;
    Decimal.ParseIntToString(tm.year);
    assert s[p + 1..p + 3] == Two(tm.month);
    assert s[p + 4..p + 6] == Two(tm.day);
    assert s[p + 7..p + 9] == Two(tm.hour);
    assert s[p + 10..p + 12] == Two(tm.minute);
    assert s[p + 13..p + 15] == Two(tm.second);
    ParseTwoTwo(tm.month);
    ParseTwoTwo(tm.day);
    ParseTwoTwo(tm.hour);
    ParseTwoTwo(tm.minute);
    ParseTwoTwo(tm.second);
  }

  /// For years 1000..9999 the rendering is fixed-width "YYYY-MM-DD HH:MM:SS".
  lemma StrftimeLayout(tm: Tm)
    requires Valid(tm) && 1000 <= tm.year <= 9999
    ensures var s := Strftime(tm);
      && |s| == 19
      && s[4] == '-' && s[7] == '-' && s[10] == ' ' && s[13] == ':' && s[16] == ':'
      && forall i :: 0 <= i < 19 && i !in {4, 7, 10, 13, 16} ==> Decimal.IsDigit(s[i])
  {
    Decimal.FourDigits(tm.year);
  }
}
