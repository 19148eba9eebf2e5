/**
 The local-date rendering of file times: Hinnant's closed-form day arithmetic against
 a calendar that counts days year by year and month by month.
 */
module CivilDate {
  import opened Decimal

  datatype Stamp = Stamp(year: int, month: int, day: int, hour: int, minute: int, second: int)

  const DAY := 86_400

  // ---------------------------------------------------------------- the closed form

  function YearOfEra(doe: int): int {
    (doe - doe / 1460 + doe / 36_524 - doe / 146_096) / 365
  }

  function YearStart(yoe: int): int { 365 * yoe + yoe / 4 - yoe / 100 }

  datatype Date = Date(year: int, month: int, day: int)

  function CivilFromDays(days: int): Date {
    var z := days + 719_468;
    var era := z / 146_097;
    var doe := z % 146_097;
    var yoe := YearOfEra(doe);
    var y := yoe + era * 400;
    var doy := doe - YearStart(yoe);
    var mp := (5 * doy + 2) / 153;
    var d := doy - (153 * mp + 2) / 5 + 1;
    var m := if mp < 10 then mp + 3 else mp - 9;
    Date(if m <= 2 then y + 1 else y, m, d)
  }

  /** The fields printed for `ms`; divisions of non-negative operands round down in the source too. */
  function Fields(ms: int): Stamp
    requires ms > 0
  {
    var secs := ms / 1000;
    var date := CivilFromDays(secs / DAY);
    var secOfDay := secs % DAY;
    Stamp(date.year, date.month, date.day, secOfDay / 3600, secOfDay % 3600 / 60, secOfDay % 60)
  }

  function FormatModified(ms: int): string {
    if ms <= 0 then "" else
      FieldsAreRight(ms);
      Text(Fields(ms))
  }

  function Text(f: Stamp): string
    requires IsStamp(f)
  {
    Padded(f.year, 4) + "-" + Padded(f.month, 2) + "-" + Padded(f.day, 2) + " "
    + Padded(f.hour, 2) + ":" + Padded(f.minute, 2) + ":" + Padded(f.second, 2)
  }

  // ---------------------------------------------------------------- the calendar

  predicate IsLeap(y: int) { y % 4 == 0 && (y % 100 != 0 || y % 400 == 0) }

  function YearLength(y: int): int { if IsLeap(y) then 366 else 365 }

  function MonthLength(y: int, m: int): int {
    if m == 2 then (if IsLeap(y) then 29 else 28)
    else if m == 4 || m == 6 || m == 9 || m == 11 then 30
    else 31
  }

  predicate IsDate(y: int, m: int, d: int) { 1 <= m <= 12 && 1 <= d <= MonthLength(y, m) }

  function DaysBeforeYear(y: int): int
    requires 1970 <= y
    decreases y
  {
    if y == 1970 then 0 else DaysBeforeYear(y - 1) + YearLength(y - 1)
  }

  function DaysBeforeMonth(y: int, m: int): int
    requires 1 <= m <= 13
    decreases m
  {
    if m == 1 then 0 else DaysBeforeMonth(y, m - 1) + MonthLength(y, m - 1)
  }

  /** Days from 1970-01-01, counted year by year and month by month. */
  function DayCount(y: int, m: int, d: int): int
    requires 1970 <= y && IsDate(y, m, d)
  {
    DaysBeforeYear(y) + DaysBeforeMonth(y, m) + d - 1
  }

  predicate IsStamp(f: Stamp) {
    && 1970 <= f.year && IsDate(f.year, f.month, f.day)
    && 0 <= f.hour < 24 && 0 <= f.minute < 60 && 0 <= f.second < 60
  }

  function Seconds(f: Stamp): int
    requires IsStamp(f)
  {
    DayCount(f.year, f.month, f.day) * DAY + f.hour * 3600 + f.minute * 60 + f.second
  }

  predicate Before(f: Stamp, g: Stamp) {
    || f.year < g.year
    || (f.year == g.year && (f.month < g.month
    || (f.month == g.month && (f.day < g.day
    || (f.day == g.day && (f.hour < g.hour
    || (f.hour == g.hour && (f.minute < g.minute
    || (f.minute == g.minute && f.second < g.second)))))))))
  }

  // ---------------------------------------------------------------- the year inside a 400-year era

  lemma YearOfEraAt(doe: int, c: int, q: int, u: int)
    requires 0 <= c < 4 && 0 <= q < 25 && 0 <= u < 1461 && 1461 * q + u < 36_524
    requires doe == 36_524 * c + 1461 * q + u
    ensures YearOfEra(doe) == 100 * c + 4 * q + (if u == 1460 then 3 else u / 365)
  {
    var e := if u + q + 24 * c < 1460 then 0 else 1;
    assert doe / 1460 == 25 * c + q + e;
    assert doe / 36_524 == c;
    assert doe / 146_096 == 0;
    assert doe - doe / 1460 + doe / 36_524 == 365 * (100 * c + 4 * q) + u - e;
  }

  lemma YearStartAt(c: int, q: int, s: int)
    requires 0 <= c < 4 && 0 <= q < 25 && 0 <= s < 4
    ensures YearStart(100 * c + 4 * q + s) == 36_524 * c + 1461 * q + 365 * s
    ensures (100 * c + 4 * q + s) / 100 == c && (100 * c + 4 * q + s) / 4 == 25 * c + q
  {
  }

  lemma YearOfEraBounds(doe: int)
    requires 0 <= doe < 146_097
    ensures var yoe := YearOfEra(doe);
      && 0 <= yoe < 400
      && YearStart(yoe) <= doe
      && (yoe < 399 ==> doe < YearStart(yoe + 1))
      && (yoe == 399 ==> doe < YearStart(399) + 366)
  {
    if doe == 146_096 {
      assert YearOfEra(doe) == 399;
    } else {
      var c := doe / 36_524;
      var r := doe % 36_524;
      var q, u := r / 1461, r % 1461;
      YearOfEraAt(doe, c, q, u);
      var s := if u == 1460 then 3 else u / 365;
      YearStartAt(c, q, s);
      if s < 3 { YearStartAt(c, q, s + 1); }
      else if q < 24 { YearStartAt(c, q + 1, 0); }
      else if c < 3 { YearStartAt(c + 1, 0, 0); }
    }
  }

  // ---------------------------------------------------------------- the calendar in closed form

  function LeapsThrough(y: int): int { y / 4 - y / 100 + y / 400 }

  lemma {:induction false} YearsClosed(y: int)
    requires 1970 <= y
    ensures DaysBeforeYear(y) == 365 * (y - 1970) + LeapsThrough(y - 1) - 477
  {
    if y > 1970 {
      YearsClosed(y - 1);
      LeapStep(y - 1);
    }
  }

  lemma LeapStep(y: int)
    ensures LeapsThrough(y) == LeapsThrough(y - 1) + (if IsLeap(y) then 1 else 0)
  {
    var s4, s100, s400 := if y % 4 == 0 then 1 else 0, if y % 100 == 0 then 1 else 0, if y % 400 == 0 then 1 else 0;
    assert y / 4 == (y - 1) / 4 + s4 by { assert (y - 1) / 4 == if y % 4 == 0 then y / 4 - 1 else y / 4; }
    assert y / 100 == (y - 1) / 100 + s100 by { assert (y - 1) / 100 == if y % 100 == 0 then y / 100 - 1 else y / 100; }
    assert y / 400 == (y - 1) / 400 + s400 by { assert (y - 1) / 400 == if y % 400 == 0 then y / 400 - 1 else y / 400; }
    assert y % 400 == 0 ==> y % 100 == 0;
    assert y % 100 == 0 ==> y % 4 == 0;
  }

  lemma LeapPeriod(y: int, era: int)
    ensures IsLeap(y + era * 400) == IsLeap(y)
  {
    assert (y + era * 400) % 400 == y % 400 by { assert (y + era * 400) / 400 == y / 400 + era; }
    assert (y + era * 400) % 100 == y % 100 by { assert (y + era * 400) / 100 == y / 100 + era * 4; }
    assert (y + era * 400) % 4 == y % 4 by { assert (y + era * 400) / 4 == y / 4 + era * 100; }
  }

  lemma EraLeaps(era: int, yoe: int)
    requires 0 <= yoe < 400
    ensures LeapsThrough(yoe + era * 400) == 97 * era + yoe / 4 - yoe / 100
  {
    assert (yoe + era * 400) / 4 == yoe / 4 + era * 100;
    assert (yoe + era * 400) / 100 == yoe / 100 + era * 4;
    assert (yoe + era * 400) / 400 == era;
  }

  /** A March year of 366 days is one that ends in a leap year's February. */
  lemma LongMarchYear(era: int, yoe: int)
    requires 0 <= yoe < 400
    requires yoe == 399 || YearStart(yoe + 1) == YearStart(yoe) + 366
    ensures IsLeap(yoe + era * 400 + 1)
  {
    LeapPeriod(yoe + 1, era);
    if yoe < 399 { assert (yoe + 1) % 4 == 0 && (yoe + 1) % 100 != 0; }
  }

  lemma MonthsClosed(y: int, m: int)
    requires 1 <= m <= 13
    ensures var leap := if IsLeap(y) then 1 else 0;
      DaysBeforeMonth(y, m) ==
        if m == 1 then 0 else if m == 2 then 31
        else (153 * (m - 3) + 2) / 5 + 59 + leap
  {
    assert DaysBeforeMonth(y, 1) == 0;
    assert DaysBeforeMonth(y, 2) == 31;
    assert DaysBeforeMonth(y, 3) == 31 + MonthLength(y, 2);
    assert DaysBeforeMonth(y, 4) == 62 + MonthLength(y, 2);
    assert DaysBeforeMonth(y, 5) == 92 + MonthLength(y, 2);
    assert DaysBeforeMonth(y, 6) == 123 + MonthLength(y, 2);
    assert DaysBeforeMonth(y, 7) == 153 + MonthLength(y, 2);
    assert DaysBeforeMonth(y, 8) == 184 + MonthLength(y, 2);
    assert DaysBeforeMonth(y, 9) == 215 + MonthLength(y, 2);
    assert DaysBeforeMonth(y, 10) == 245 + MonthLength(y, 2);
    assert DaysBeforeMonth(y, 11) == 276 + MonthLength(y, 2);
    assert DaysBeforeMonth(y, 12) == 306 + MonthLength(y, 2);
    assert DaysBeforeMonth(y, 13) == 337 + MonthLength(y, 2);
  }

  /** Day `doy` of the year that begins on 1 March of `y` is a date, and the calendar counts it there. */
  lemma MarchYear(y: int, doy: int, mp: int, date: Date)
    requires 1969 <= y && 0 <= doy <= 365 && (doy == 365 ==> IsLeap(y + 1))
    requires mp == (5 * doy + 2) / 153 && (y == 1969 ==> mp >= 10)
    requires date.day == doy - (153 * mp + 2) / 5 + 1
    requires date.month == if mp < 10 then mp + 3 else mp - 9
    requires date.year == if date.month <= 2 then y + 1 else y
    ensures 1970 <= date.year && IsDate(date.year, date.month, date.day)
    ensures DayCount(date.year, date.month, date.day) == 365 * y + LeapsThrough(y) - 719_468 + doy
  {
    if mp < 10 {
      MonthsClosed(y, mp + 3);
      YearsClosed(y);
      LeapStep(y);
    } else {
      MonthsClosed(y + 1, mp - 9);
      YearsClosed(y + 1);
    }
  }

  // ---------------------------------------------------------------- theorems

  lemma EraOf(z: int)
    requires 719_468 <= z
    ensures z == z / 146_097 * 146_097 + z % 146_097
    ensures 4 <= z / 146_097 && (z / 146_097 == 4 ==> 135_080 <= z % 146_097)
  {
  }

  lemma CivilInvertsDayCount(days: int)
    requires 0 <= days
    ensures var c := CivilFromDays(days);
      1970 <= c.year && IsDate(c.year, c.month, c.day) && DayCount(c.year, c.month, c.day) == days
  {
    var z := days + 719_468;
    var era, doe := z / 146_097, z % 146_097;
    var yoe := YearOfEra(doe);
    var doy := doe - YearStart(yoe);
    var mp := (5 * doy + 2) / 153;
    EraOf(z);
    DayOfMarchYear(era, doe);
    var y := yoe + era * 400;
    assert 365 * y + LeapsThrough(y) - 719_468 + doy == days by { EraLeaps(era, yoe); }
    assert doy == 365 ==> IsLeap(y + 1) by { if doy == 365 { LongMarchYear(era, yoe); } }
    MarchYear(y, doy, mp, CivilFromDays(days));
  }

  /** Where an era's day falls in its March year, and that no day since 1970 falls before March 1969. */
  lemma DayOfMarchYear(era: int, doe: int)
    requires 4 <= era && 0 <= doe < 146_097 && (era == 4 ==> 135_080 <= doe)
    ensures var yoe := YearOfEra(doe);
      var doy := doe - YearStart(yoe);
      && 0 <= yoe < 400 && 0 <= doy <= 365
      && (doy == 365 ==> yoe == 399 || YearStart(yoe + 1) == YearStart(yoe) + 366)
      && 1969 <= yoe + era * 400
      && (yoe + era * 400 == 1969 ==> (5 * doy + 2) / 153 >= 10)
  {
    var yoe := YearOfEra(doe);
    YearOfEraBounds(doe);
    assert YearStart(yoe + 1) <= YearStart(yoe) + 366;
    if yoe < 369 {
      assert YearStart(yoe + 1) <= YearStart(369);
    }
  }

  lemma TimeOfDay(s: int)
    requires 0 <= s < DAY
    ensures 0 <= s / 3600 < 24 && 0 <= s % 3600 / 60 < 60
    ensures s / 3600 * 3600 + s % 3600 / 60 * 60 + s % 60 == s
  {
    assert s % 3600 % 60 == s % 60;
  }

  /** The printed fields are a real date and time of day, and recompose to the input's second. */
  lemma FieldsAreRight(ms: int)
    requires ms > 0
    ensures IsStamp(Fields(ms)) && Seconds(Fields(ms)) == ms / 1000
  {
    CivilInvertsDayCount(ms / 1000 / DAY);
    TimeOfDay(ms / 1000 % DAY);
  }

  lemma {:induction false} YearsGrow(x: int, y: int)
    requires 1970 <= x < y
    ensures DaysBeforeYear(x) + YearLength(x) <= DaysBeforeYear(y)
    decreases y
  {
    assert DaysBeforeYear(y) == DaysBeforeYear(y - 1) + YearLength(y - 1);
    if x + 1 < y { YearsGrow(x, y - 1); }
  }

  lemma {:induction false} MonthsGrow(y: int, m: int, n: int)
    requires 1 <= m < n <= 13
    ensures DaysBeforeMonth(y, m) + MonthLength(y, m) <= DaysBeforeMonth(y, n)
    ensures DaysBeforeMonth(y, 13) == YearLength(y)
    decreases n
  {
    MonthsClosed(y, 13);
    if m + 1 < n { MonthsGrow(y, m, n - 1); }
  }

  lemma EarlierStampsHaveFewerSeconds(f: Stamp, g: Stamp)
    requires IsStamp(f) && IsStamp(g) && Before(f, g)
    ensures Seconds(f) < Seconds(g)
  {
    MonthsGrow(f.year, f.month, 13);
    if f.year < g.year {
      YearsGrow(f.year, g.year);
      if g.month > 1 { MonthsGrow(g.year, 1, g.month); }
      assert DayCount(f.year, f.month, f.day) < DayCount(g.year, g.month, g.day);
    } else if f.month < g.month {
      MonthsGrow(f.year, f.month, g.month);
      assert DayCount(f.year, f.month, f.day) < DayCount(g.year, g.month, g.day);
    }
  }

  /** Fields order exactly as the seconds do; in particular equal fields mean the same second. */
  lemma FieldsOrder(ms1: int, ms2: int)
    requires ms1 > 0 && ms2 > 0
    ensures Before(Fields(ms1), Fields(ms2)) <==> ms1 / 1000 < ms2 / 1000
    ensures Fields(ms1) == Fields(ms2) <==> ms1 / 1000 == ms2 / 1000
  {
    FieldsAreRight(ms1);
    FieldsAreRight(ms2);
    var f, g := Fields(ms1), Fields(ms2);
    if Before(f, g) {
      EarlierStampsHaveFewerSeconds(f, g);
    } else if Before(g, f) {
      EarlierStampsHaveFewerSeconds(g, f);
    } else {
      assert f == g;
    }
  }

  /** Two file times render alike exactly when they fall in the same second. */
  lemma RenderingSeparatesSeconds(ms1: int, ms2: int)
    requires ms1 > 0 && ms2 > 0
    ensures FormatModified(ms1) == FormatModified(ms2) <==> ms1 / 1000 == ms2 / 1000
  {
    FieldsOrder(ms1, ms2);
    FieldsAreRight(ms1);
    FieldsAreRight(ms2);
    if FormatModified(ms1) == FormatModified(ms2) {
      TextIsInjective(Fields(ms1), Fields(ms2));
    }
  }

  lemma TextSlices(f: Stamp)
    requires IsStamp(f)
    ensures var n, t := |Padded(f.year, 4)|, Text(f);
      && |t| == n + 15
      && t[..n] == Padded(f.year, 4) && t[n + 1..n + 3] == Padded(f.month, 2)
      && t[n + 4..n + 6] == Padded(f.day, 2) && t[n + 7..n + 9] == Padded(f.hour, 2)
      && t[n + 10..n + 12] == Padded(f.minute, 2) && t[n + 13..] == Padded(f.second, 2)
  {
    TwoDigits(f.month);
    TwoDigits(f.day);
    TwoDigits(f.hour);
    TwoDigits(f.minute);
    TwoDigits(f.second);
  }

  /** Digits only, and they read as the number. */
  ghost predicate Spells(s: string, n: int) {
    (forall i | 0 <= i < |s| :: IsDigit(s[i])) && ValueOf(s) == n
  }

  /** The text by its columns: each field in its place, and what stands between them. */
  ghost predicate HasColumns(t: string, f: Stamp) {
    var n := |t| - 15;
    && n >= 4 && Spells(t[..n], f.year) && t[n] == '-' && Spells(t[n + 1..n + 3], f.month) && t[n + 3] == '-'
    && Spells(t[n + 4..n + 6], f.day) && t[n + 6] == ' ' && Spells(t[n + 7..n + 9], f.hour) && t[n + 9] == ':'
    && Spells(t[n + 10..n + 12], f.minute) && t[n + 12] == ':' && Spells(t[n + 13..], f.second)
  }

  lemma TextHasColumns(f: Stamp)
    requires IsStamp(f)
    ensures HasColumns(Text(f), f)
  {
    TextSlices(f);
    Separators(f);
    NumeralValue(f.year, 4);
    NumeralValue(f.month, 2);
    NumeralValue(f.day, 2);
    NumeralValue(f.hour, 2);
    NumeralValue(f.minute, 2);
    NumeralValue(f.second, 2);
  }

  lemma Separators(f: Stamp)
    requires IsStamp(f)
    ensures var n, t := |Padded(f.year, 4)|, Text(f);
      |t| == n + 15 && t[n] == '-' && t[n + 3] == '-' && t[n + 6] == ' ' && t[n + 9] == ':' && t[n + 12] == ':'
  {
    TwoDigits(f.month);
    TwoDigits(f.day);
    TwoDigits(f.hour);
    TwoDigits(f.minute);
    TwoDigits(f.second);
  }

  /** A time that is not after the epoch has no text; any other has its second's date and time of day in columns. */
  lemma FormatExactly(ms: int)
    ensures ms <= 0 ==> FormatModified(ms) == ""
    ensures ms > 0 ==> exists f ::
      IsStamp(f) && Seconds(f) == ms / 1000 && HasColumns(FormatModified(ms), f)
  {
    if ms > 0 {
      FieldsAreRight(ms);
      TextHasColumns(Fields(ms));
    }
  }

  lemma TextIsInjective(f: Stamp, g: Stamp)
    requires IsStamp(f) && IsStamp(g) && Text(f) == Text(g)
    ensures f == g
  {
    TextSlices(f);
    TextSlices(g);
    var n := |Padded(f.year, 4)|;
    assert n == |Padded(g.year, 4)|;
    assert f.year == g.year by { NumeralsDiffer(f.year, g.year, 4); }
    assert f.month == g.month by { NumeralsDiffer(f.month, g.month, 2); }
    assert f.day == g.day by { NumeralsDiffer(f.day, g.day, 2); }
    assert f.hour == g.hour by { NumeralsDiffer(f.hour, g.hour, 2); }
    assert f.minute == g.minute by { NumeralsDiffer(f.minute, g.minute, 2); }
    assert f.second == g.second by { NumeralsDiffer(f.second, g.second, 2); }
  }
}
