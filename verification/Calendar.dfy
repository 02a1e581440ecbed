/** Three hand-written calendar computations: the Julian-day formula of WebDAV
    creation dates, the era formula of the log reader, and the inverse used for
    archive timestamps. */
module Calendar {
  // ── From a date to a day number ────────────────────────────────────────────

  /** `parse_iso8601`: days since 1970-01-01 by way of the Julian day number. */
  function JulianDays(year: int, month: int, day: int): int
    requires year >= 0 && 1 <= month <= 12
  {
    var a := (14 - month) / 12;
    var y := year + 4800 - a;
    var m := month + 12 * a - 3;
    var jdn := day + (153 * m + 2) / 5 + 365 * y + y / 4 - y / 100 + y / 400 - 32045;
    jdn - 2440588
  }

  /** Division that drops the fraction, as the server's language does. */
  function Truncated(x: int, d: int): int
    requires d > 0
  {
    if x >= 0 then x / d else -((-x) / d)
  }

  /** `pg_timestamp_ms`: days since 1970-01-01 by 400-year eras. */
  function EraDays(year: int, month: int, day: int): int
    requires 1 <= month <= 12
  {
    var y := if month <= 2 then year - 1 else year;
    var era := Truncated(if y >= 0 then y else y - 399, 400);
    var yoe := y - era * 400;
    var mp := (month + 9) % 12;
    var doy := (153 * mp + 2) / 5 + day - 1;
    var doe := yoe * 365 + yoe / 4 - yoe / 100 + doy;
    era * 146097 + doe - 719468
  }

  lemma EraSplits(era: int, yoe: int)
    requires 0 <= yoe < 400
    ensures (400 * era + yoe + 4800) / 4 == 100 * era + 1200 + yoe / 4
    ensures (400 * era + yoe + 4800) / 100 == 4 * era + 48 + yoe / 100
    ensures (400 * era + yoe + 4800) / 400 == era + 12
  {
  }

  /** The day number of a date whose March-based year is `400 * era + yoe`. */
  function DayNumber(era: int, yoe: int, month: int, day: int): int {
    era * 146097 + 365 * yoe + yoe / 4 - yoe / 100 + (153 * ((month + 9) % 12) + 2) / 5 + day - 1 - 719468
  }

  lemma JulianDaysAre(year: int, month: int, day: int, era: int, yoe: int)
    requires year >= 0 && 1 <= month <= 12 && 0 <= yoe < 400
    requires (if month <= 2 then year - 1 else year) == 400 * era + yoe
    ensures JulianDays(year, month, day) == DayNumber(era, yoe, month, day)
  {
    EraSplits(era, yoe);
    assert (14 - month) / 12 == if month <= 2 then 1 else 0;
    assert month + 12 * ((14 - month) / 12) - 3 == (month + 9) % 12;
  }

  /** The two formulas agree on every date from year 0 on. */
  lemma FormulasAgree(year: int, month: int, day: int)
    requires year >= 0 && 1 <= month <= 12
    ensures JulianDays(year, month, day) == EraDays(year, month, day)
  {
    hide JulianDays;
    var y := if month <= 2 then year - 1 else year;
    var era := Truncated(if y >= 0 then y else y - 399, 400);
    JulianDaysAre(year, month, day, era, y - era * 400);
  }

  // ── From a day number to a date ────────────────────────────────────────────

  /** The fields of `unix_to_zip_datetime` before they are clamped. */
  datatype Fields = Fields(year: int, month: int, day: int)

  function YearOfEra(doe: int): int {
    (doe - doe / 1460 + doe / 36524 - doe / 146096) / 365
  }

  function DayInYear(doe: int, y: int): int {
    doe - (365 * y + y / 4 - y / 100 + y / 400)
  }

  function FieldsOf(days: nat): Fields {
    var z := days + 719468;
    var era := z / 146097;
    var doe := z - era * 146097;
    var y := YearOfEra(doe);
    var doy := DayInYear(doe, y);
    var mp := (5 * doy + 2) / 153;
    Fields(y + era * 400, if mp < 10 then mp + 3 else mp - 9, doy - (153 * mp + 2) / 5 + 1)
  }

  /** The years counted there start in March: January and February belong to the
      civil year after. */
  function CivilYear(f: Fields): int {
    if f.month <= 2 then f.year + 1 else f.year
  }

  lemma DivIs(x: int, d: int, k: int)
    requires d > 0 && k * d <= x < k * d + d
    ensures x / d == k
  {
    var q := x / d;
    assert x == q * d + x % d;
    assert (q - k) * d == q * d - k * d;
    MulSmall(q - k, d);
  }

  lemma MulSmall(n: int, d: int)
    requires d > 0 && -d < n * d < d
    ensures n == 0
  {
    assert n >= 1 ==> n * d >= d;
    assert n <= -1 ==> n * d <= -d;
  }

  /** A day of an era as centuries, four-year groups, years and days. */
  lemma EraDigits(doe: int) returns (c: int, q: int, r: int, t: int)
    requires 0 <= doe < 146097
    ensures 0 <= c <= 3 && 0 <= q <= 24 && 0 <= r <= 3 && 0 <= t <= 365
    ensures doe == 36524 * c + 1461 * q + 365 * r + t
    ensures t == 365 ==> r == 3 && (q < 24 || c == 3)
  {
    c := if doe / 36524 > 3 then 3 else doe / 36524;
    var x := doe - 36524 * c;
    q := if x / 1461 > 24 then 24 else x / 1461;
    var y := x - 1461 * q;
    r := if y / 365 > 3 then 3 else y / 365;
    t := y - 365 * r;
  }

  /** The closed form finds the year of the era. */
  lemma YearOfEraIs(c: int, q: int, r: int, t: int)
    requires 0 <= c <= 3 && 0 <= q <= 24 && 0 <= r <= 3 && 0 <= t <= 365
    requires t == 365 ==> r == 3 && (q < 24 || c == 3)
    ensures YearOfEra(36524 * c + 1461 * q + 365 * r + t) == 100 * c + 4 * q + r
  {
    var doe := 36524 * c + 1461 * q + 365 * r + t;
    var short := 24 * c + q + 365 * r + t < 1460;
    var last := c == 3 && q == 24 && t == 365;
    By1460(c, q, r, t);
    By36524(c, q, r, t);
    DivIs(doe, 146096, if last then 1 else 0);
    var n := 365 * (100 * c + 4 * q + r) + t - (if short then 0 else 1);
    assert doe - doe / 1460 + doe / 36524 - doe / 146096 == n;
    DivIs(n, 365, 100 * c + 4 * q + r);
  }

  lemma By1460(c: int, q: int, r: int, t: int)
    requires 0 <= c <= 3 && 0 <= q <= 24 && 0 <= r <= 3 && 0 <= t <= 365
    ensures (36524 * c + 1461 * q + 365 * r + t) / 1460 ==
              25 * c + q + if 24 * c + q + 365 * r + t < 1460 then 0 else 1
  {
    var doe, w := 36524 * c + 1461 * q + 365 * r + t, 24 * c + q + 365 * r + t;
    DivIs(doe, 1460, 25 * c + q + if w < 1460 then 0 else 1);
  }

  lemma By36524(c: int, q: int, r: int, t: int)
    requires 0 <= c <= 3 && 0 <= q <= 24 && 0 <= r <= 3 && 0 <= t <= 365
    requires t == 365 ==> r == 3 && (q < 24 || c == 3)
    ensures (36524 * c + 1461 * q + 365 * r + t) / 36524 ==
              if c == 3 && q == 24 && t == 365 then 4 else c
  {
    DivIs(36524 * c + 1461 * q + 365 * r + t, 36524, if c == 3 && q == 24 && t == 365 then 4 else c);
  }

  lemma YearStart(c: int, q: int, r: int)
    requires 0 <= c <= 3 && 0 <= q <= 24 && 0 <= r <= 3
    ensures var y := 100 * c + 4 * q + r;
      365 * y + y / 4 - y / 100 == 36524 * c + 1461 * q + 365 * r
  {
    var y := 100 * c + 4 * q + r;
    DivIs(y, 4, 25 * c + q);
    DivIs(y, 100, c);
  }

  lemma DayInYearIs(c: int, q: int, r: int, t: int)
    requires 0 <= c <= 3 && 0 <= q <= 24 && 0 <= r <= 3
    ensures DayInYear(36524 * c + 1461 * q + 365 * r + t, 100 * c + 4 * q + r) == t
  {
    YearStart(c, q, r);
    DivIs(100 * c + 4 * q + r, 400, 0);
  }

  lemma MonthOfDay(doy: int)
    requires 0 <= doy <= 365
    ensures var mp := (5 * doy + 2) / 153;
      0 <= mp <= 11 && 1 <= doy - (153 * mp + 2) / 5 + 1 <= 31
  {
  }

  /** A day number, spelled out, and its fields. */
  lemma FieldsAre(days: nat, era: int, c: int, q: int, r: int, t: int)
    requires 0 <= c <= 3 && 0 <= q <= 24 && 0 <= r <= 3 && 0 <= t <= 365
    requires t == 365 ==> r == 3 && (q < 24 || c == 3)
    requires days + 719468 == era * 146097 + (36524 * c + 1461 * q + 365 * r + t)
    ensures var mp := (5 * t + 2) / 153;
      FieldsOf(days) == Fields(400 * era + (100 * c + 4 * q + r),
                               if mp < 10 then mp + 3 else mp - 9, t - (153 * mp + 2) / 5 + 1)
  {
    hide YearOfEra, DayInYear;
    var doe := 36524 * c + 1461 * q + 365 * r + t;
    DivIs(days + 719468, 146097, era);
    YearOfEraIs(c, q, r, t);
    DayInYearIs(c, q, r, t);
  }

  /** A date, spelled out, and its day number. */
  lemma EraDaysAre(year: int, month: int, day: int, era: int, c: int, q: int, r: int)
    requires 1 <= month <= 12 && era >= 0 && 0 <= c <= 3 && 0 <= q <= 24 && 0 <= r <= 3
    requires (if month <= 2 then year - 1 else year) == 400 * era + (100 * c + 4 * q + r)
    ensures EraDays(year, month, day) ==
              era * 146097 + 36524 * c + 1461 * q + 365 * r + (153 * ((month + 9) % 12) + 2) / 5 + day - 1 - 719468
  {
    var y := 400 * era + (100 * c + 4 * q + r);
    DivIs(y, 400, era);
    YearStart(c, q, r);
  }

  /** The fields invert both formulas, once the year is advanced by one for January
      and February. */
  lemma FieldsInvert(days: nat)
    ensures var f := FieldsOf(days);
      && 1 <= f.month <= 12 && 1 <= f.day <= 31 && f.year >= 0
      && EraDays(CivilYear(f), f.month, f.day) == days
      && JulianDays(CivilYear(f), f.month, f.day) == days
  {
    hide FieldsOf, EraDays, JulianDays;
    var era := (days + 719468) / 146097;
    var doe := days + 719468 - era * 146097;
    var c, q, r, t := EraDigits(doe);
    FieldsAre(days, era, c, q, r, t);
    MonthOfDay(t);
    var f := FieldsOf(days);
    assert (f.month + 9) % 12 == (5 * t + 2) / 153;
    EraDaysAre(CivilYear(f), f.month, f.day, era, c, q, r);
    FormulasAgree(CivilYear(f), f.month, f.day);
  }

  /** Without that step the year is one too early exactly in January and February. */
  lemma YearLagsBeforeMarch(days: nat)
    ensures var f := FieldsOf(days);
      EraDays(f.year, f.month, f.day) == days <==> f.month > 2
  {
    FieldsInvert(days);
    var f := FieldsOf(days);
    if f.month <= 2 {
      EraGrows(f.year, f.month, f.day);
    }
  }

  lemma EraGrows(year: int, month: int, day: int)
    requires year >= 0 && 1 <= month <= 12
    ensures JulianDays(year, month, day) < JulianDays(year + 1, month, day)
    ensures EraDays(year, month, day) < EraDays(year + 1, month, day)
  {
    FormulasAgree(year, month, day);
    FormulasAgree(year + 1, month, day);
  }

  // ── The other direction ────────────────────────────────────────────────────

  predicate LeapYear(year: int) {
    year % 4 == 0 && (year % 100 != 0 || year % 400 == 0)
  }

  function MonthLength(year: int, month: int): int
    requires 1 <= month <= 12
  {
    if month == 2 then (if LeapYear(year) then 29 else 28)
    else if month in {4, 6, 9, 11} then 30 else 31
  }

  predicate ValidDate(year: int, month: int, day: int) {
    1 <= month <= 12 && 1 <= day <= MonthLength(year, month)
  }

  /** The day after a valid date. */
  function NextDay(d: Fields): Fields
    requires ValidDate(d.year, d.month, d.day)
  {
    if d.day < MonthLength(d.year, d.month) then d.(day := d.day + 1)
    else if d.month < 12 then Fields(d.year, d.month + 1, 1)
    else Fields(d.year + 1, 1, 1)
  }

  lemma LeapDigits(year: int, era: int, c: int, q: int, r: int)
    requires 0 <= c <= 3 && 0 <= q <= 24 && 0 <= r <= 3
    requires year - 1 == 400 * era + (100 * c + 4 * q + r)
    ensures LeapYear(year) <==> r == 3 && (q < 24 || c == 3)
  {
    assert year == 4 * (100 * era + 25 * c + q) + r + 1;
    assert year == 100 * (4 * era + c) + 4 * q + r + 1;
    assert year == 400 * era + 100 * c + 4 * q + r + 1;
  }

  /** The day after the last of February is the first of March. */
  lemma MarchFollows(year: int)
    requires year >= 1
    ensures EraDays(year, 3, 1) == EraDays(year, 2, MonthLength(year, 2)) + 1
  {
    hide EraDays, LeapYear;
    var era, c, q, r := YearDigits(year - 1);
    LeapDigits(year, era, c, q, r);
    EraDaysAre(year, 2, MonthLength(year, 2), era, c, q, r);
    if r < 3 {
      EraDaysAre(year, 3, 1, era, c, q, r + 1);
    } else if q < 24 {
      EraDaysAre(year, 3, 1, era, c, q + 1, 0);
    } else if c < 3 {
      EraDaysAre(year, 3, 1, era, c + 1, 0, 0);
    } else {
      EraDaysAre(year, 3, 1, era + 1, 0, 0, 0);
    }
  }

  /** Within the years counted from March, one month follows the other. */
  lemma MonthFollows(year: int, month: int)
    requires year >= 1 && 1 <= month <= 12 && month != 2
    ensures var next := if month < 12 then (year, month + 1) else (year + 1, 1);
      EraDays(next.0, next.1, 1) == EraDays(year, month, MonthLength(year, month)) + 1
  {
    hide EraDays, LeapYear;
    MonthStep(month);
    var era, c, q, r := YearDigits(if month <= 2 then year - 1 else year);
    EraDaysAre(year, month, MonthLength(year, month), era, c, q, r);
    if month < 12 {
      EraDaysAre(year, month + 1, 1, era, c, q, r);
    } else {
      EraDaysAre(year + 1, 1, 1, era, c, q, r);
    }
  }

  lemma MonthStep(month: int)
    requires 1 <= month <= 12 && month != 2
    ensures (153 * ((month % 12 + 10) % 12) + 2) / 5 ==
              (153 * ((month + 9) % 12) + 2) / 5 + if month in {4, 6, 9, 11} then 30 else 31
  {
  }

  lemma DayFollows(year: int, month: int, day: int)
    requires year >= 1 && 1 <= month <= 12
    ensures EraDays(year, month, day + 1) == EraDays(year, month, day) + 1
  {
  }

  /** Day numbers count the days of the calendar from 1970-01-01 on. */
  lemma DaysAreCounted(d: Fields)
    requires ValidDate(d.year, d.month, d.day) && d.year >= 1
    ensures EraDays(1970, 1, 1) == 0 && JulianDays(1970, 1, 1) == 0
    ensures var e := NextDay(d);
      && ValidDate(e.year, e.month, e.day)
      && EraDays(e.year, e.month, e.day) == EraDays(d.year, d.month, d.day) + 1
      && JulianDays(e.year, e.month, e.day) == JulianDays(d.year, d.month, d.day) + 1
  {
    hide EraDays, JulianDays, LeapYear;
    Epoch();
    FormulasAgree(1970, 1, 1);
    var e := NextDay(d);
    FormulasAgree(d.year, d.month, d.day);
    FormulasAgree(e.year, e.month, e.day);
    if d.day < MonthLength(d.year, d.month) {
      DayFollows(d.year, d.month, d.day);
    } else if d.month == 2 {
      MarchFollows(d.year);
    } else {
      MonthFollows(d.year, d.month);
    }
  }

  lemma Epoch()
    ensures EraDays(1970, 1, 1) == 0
  {
  }

  lemma DayOfMonth(mp: int, day: int, longest: int)
    requires 0 <= mp <= 11 && 1 <= day <= longest
    requires longest == if mp == 11 then 29 else if mp in {1, 3, 6, 8} then 30 else 31
    ensures var doy := (153 * mp + 2) / 5 + day - 1;
      0 <= doy <= 365 && (5 * doy + 2) / 153 == mp
  {
  }

  /** Going to a day number and back returns every valid date from 1970 on. */
  lemma DatesComeBack(year: int, month: int, day: int)
    requires ValidDate(year, month, day) && EraDays(year, month, day) >= 0 && year >= 1
    ensures var f := FieldsOf(EraDays(year, month, day));
      CivilYear(f) == year && f.month == month && f.day == day
  {
    DayOfYear(year, month, day);
    hide FieldsOf, EraDays, ValidDate, MonthLength;
    var y := if month <= 2 then year - 1 else year;
    var doy := (153 * ((month + 9) % 12) + 2) / 5 + day - 1;
    var era, c, q, r := YearDigits(y);
    if doy == 365 {
      LastDay(year, month, day, era, c, q, r);
    }
    EraDaysAre(year, month, day, era, c, q, r);
    FieldsAre(EraDays(year, month, day), era, c, q, r, doy);
  }

  lemma YearDigits(y: int) returns (era: int, c: int, q: int, r: int)
    requires y >= 0
    ensures era >= 0 && 0 <= c <= 3 && 0 <= q <= 24 && 0 <= r <= 3
    ensures y == 400 * era + (100 * c + 4 * q + r)
  {
    era := y / 400;
    var yoe := y % 400;
    c, q, r := yoe / 100, yoe % 100 / 4, yoe % 4;
  }

  lemma DayOfYear(year: int, month: int, day: int)
    requires ValidDate(year, month, day)
    ensures var mp := (month + 9) % 12;
      var doy := (153 * mp + 2) / 5 + day - 1;
      && 0 <= doy <= 365 && (5 * doy + 2) / 153 == mp
      && month == if mp < 10 then mp + 3 else mp - 9
  {
    var mp := (month + 9) % 12;
    DayOfMonth(mp, day, if mp == 11 then 29 else if mp in {1, 3, 6, 8} then 30 else 31);
  }

  /** Only the 29th of February is the last day of a long year. */
  lemma LastDay(year: int, month: int, day: int, era: int, c: int, q: int, r: int)
    requires ValidDate(year, month, day) && era >= 0
    requires 0 <= c <= 3 && 0 <= q <= 24 && 0 <= r <= 3
    requires (if month <= 2 then year - 1 else year) == 400 * era + (100 * c + 4 * q + r)
    requires (153 * ((month + 9) % 12) + 2) / 5 + day - 1 == 365
    ensures r == 3 && (q < 24 || c == 3)
  {
    assert month == 2 && day == 29;
    DivIs(year, 4, 100 * era + 25 * c + q + if r == 3 then 1 else 0);
    DivIs(year, 100, 4 * era + c + if q == 24 && r == 3 then 1 else 0);
    DivIs(year, 400, era + if c == 3 && q == 24 && r == 3 then 1 else 0);
  }

  /** The year stored in the archive. */
  function ArchiveYear(days: nat): int {
    var y := FieldsOf(days).year;
    if y < 1980 then 1980 else if y > 2107 then 2107 else y
  }

  /** Within the range of the format the stored year is right from March on; before
      March it is one too early, except in 1980, where clamping hides it.  Earlier years
      become the first one of the format and later ones the last. */
  lemma ArchiveYearIs(days: nat)
    ensures var f := FieldsOf(days);
      && (1980 <= CivilYear(f) <= 2107 ==>
            (ArchiveYear(days) == CivilYear(f) <==> f.month > 2 || CivilYear(f) == 1980))
      && (CivilYear(f) < 1980 ==> ArchiveYear(days) == 1980)
      && (CivilYear(f) > 2108 ==> ArchiveYear(days) == 2107)
      && (ArchiveYear(days) == CivilYear(f) || ArchiveYear(days) == CivilYear(f) - 1 ||
          ArchiveYear(days) == 1980 || ArchiveYear(days) == 2107)
  {
    hide YearOfEra, DayInYear;
  }
}
