/** The Gregorian calendar, and the conversion of a day number to a date. */
module CivilDate {

  datatype Date = Date(year: int, month: int, day: int)

  // ----- The calendar

  predicate Leap(year: int) {
    year % 4 == 0 && (year % 100 != 0 || year % 400 == 0)
  }

  function DaysInMonth(year: int, month: int): int {
    if month == 2 then (if Leap(year) then 29 else 28)
    else if month == 4 || month == 6 || month == 9 || month == 11 then 30
    else 31
  }

  predicate ValidDate(d: Date) {
    1 <= d.month <= 12 && 1 <= d.day <= DaysInMonth(d.year, d.month)
  }

  function NextDay(d: Date): Date {
    if d.day < DaysInMonth(d.year, d.month) then d.(day := d.day + 1)
    else if d.month < 12 then Date(d.year, d.month + 1, 1)
    else Date(d.year + 1, 1, 1)
  }

  predicate Earlier(d: Date, e: Date) {
    d.year < e.year || (d.year == e.year && (d.month < e.month || (d.month == e.month && d.day < e.day)))
  }

  /** The date n days after 1 January 1970. */
  function DateOf(n: nat): Date {
    if n == 0 then Date(1970, 1, 1) else NextDay(DateOf(n - 1))
  }

  lemma {:induction false} DateOfValid(n: nat)
    ensures ValidDate(DateOf(n))
  {
    if n > 0 {
      DateOfValid(n - 1);
    }
  }

  /** Later days have later dates, so no date is two days'. */
  lemma {:induction false} DateOfMonotone(m: nat, n: nat)
    requires m < n
    ensures Earlier(DateOf(m), DateOf(n))
    decreases n
  {
    DateOfValid(n - 1);
    if m < n - 1 {
      DateOfMonotone(m, n - 1);
    }
  }

  // ----- Years from March

  /** Days of a 400-year era before its year q, which starts on 1 March. */
  function YearStart(q: int): int {
    365 * q + q / 4 - q / 100
  }

  function YearOfEra(doe: int): int {
    (doe - doe / 1460 + doe / 36524 - doe / 146096) / 365
  }

  /** Within a century, cycles of four years. */
  lemma YearOfCentury(b: int, k: int, s: int, r: int)
    requires 0 <= b <= 3 && 0 <= k <= 24 && 0 <= s <= 1460 && (k == 24 ==> s <= 1459) && r == 1461 * k + s
    ensures var q := (r - (24 * b + r) / 1460) / 365;
      0 <= q <= 99 && 365 * q + q / 4 <= r && (q == 99 || r < 365 * (q + 1) + (q + 1) / 4)
  {
    var e := (24 * b + k + s) / 1460;
    assert (24 * b + r) / 1460 == k + e;
    assert e == 0 || e == 1;
    var j := (s - e) / 365;
    assert 0 <= j <= 3;
    assert (r - (24 * b + r) / 1460) / 365 == 4 * k + j;
  }

  lemma YearOfDay(b: int, r: int)
    requires 0 <= b <= 3 && 0 <= r < 36524
    ensures YearOfEra(36524 * b + r) == 100 * b + (r - (24 * b + r) / 1460) / 365
  {
    var doe := 36524 * b + r;
    assert doe / 36524 == b && doe / 146096 == 0;
    assert doe == 1460 * (25 * b) + (24 * b + r);
    assert doe / 1460 == 25 * b + (24 * b + r) / 1460;
    assert doe - doe / 1460 + b == 365 * (100 * b) + (r - (24 * b + r) / 1460);
  }

  lemma CenturyStart(b: int, q: int)
    requires 0 <= b <= 3 && 0 <= q <= 99
    ensures YearStart(100 * b + q) == 36524 * b + 365 * q + q / 4
    ensures YearStart(100 * b + 100) == 36524 * b + 36524
  {
  }

  /** The year of the era is the one whose days the day falls in. */
  lemma YearOfEraRight(doe: int)
    requires 0 <= doe < 146097
    ensures var q := YearOfEra(doe); 0 <= q < 400 && YearStart(q) <= doe && (q == 399 || doe < YearStart(q + 1))
  {
    var b, r := doe / 36524, doe % 36524;
    if b < 4 {
      YearInCentury(b, r);
    } else {
      assert doe == 146096;
    }
  }

  lemma YearInCentury(b: int, r: int)
    requires 0 <= b <= 3 && 0 <= r < 36524
    ensures var doe := 36524 * b + r; var q := YearOfEra(doe);
      0 <= q < 400 && YearStart(q) <= doe && (q == 399 || doe < YearStart(q + 1))
  {
    YearOfDay(b, r);
    YearOfCentury(b, r / 1461, r % 1461, r);
    var q := (r - (24 * b + r) / 1460) / 365;
    CenturyStart(b, q);
    if q < 99 {
      CenturyStart(b, q + 1);
    }
  }

  /** The days of the year q of an era, up to the next 1 March. */
  lemma YearLength(q: int)
    requires 0 <= q < 400
    ensures (if q == 399 then 146097 else YearStart(q + 1)) - YearStart(q) == if Leap(q + 1) then 366 else 365
  {
    NextQuotient4(q);
    NextQuotient100(q);
  }

  lemma NextQuotient4(q: int)
    ensures (q + 1) / 4 == q / 4 + if (q + 1) % 4 == 0 then 1 else 0
  {
  }

  lemma NextQuotient100(q: int)
    ensures (q + 1) / 100 == q / 100 + if (q + 1) % 100 == 0 then 1 else 0
  {
  }

  lemma YearStartGrows(p: int, q: int)
    requires 0 <= p < q
    ensures YearStart(p + 1) <= YearStart(q)
  {
  }

  lemma Mod4(k: int, q: int)
    ensures (4 * k + q) % 4 == q % 4
  {
  }

  lemma Mod100(k: int, q: int)
    ensures (100 * k + q) % 100 == q % 100
  {
  }

  lemma Mod400(k: int, q: int)
    ensures (400 * k + q) % 400 == q % 400
  {
  }

  lemma SameEraYear(era: int, q: int)
    ensures Leap(400 * era + q) == Leap(q)
  {
    Mod4(100 * era, q);
    Mod100(4 * era, q);
    Mod400(era, q);
  }

  // ----- Months from March

  /** Where the months of a year from March start. */
  function MonthStart(month: int): int {
    (153 * month + 2) / 5
  }

  function MonthOfYear(doy: int): int {
    (5 * doy + 2) / 153
  }

  lemma MonthOfYearRight(doy: int)
    requires 0 <= doy <= 365
    ensures var m := MonthOfYear(doy); 0 <= m <= 11 && MonthStart(m) <= doy && (m == 11 || doy < MonthStart(m + 1))
  {
  }

  function MonthDays(year: int, month: int): int {
    if month == 11 then (if Leap(year + 1) then 29 else 28)
    else if month == 1 || month == 3 || month == 6 || month == 8 then 30
    else 31
  }

  lemma MonthLength(year: int, month: int)
    requires 0 <= month < 11
    ensures MonthStart(month + 1) - MonthStart(month) == MonthDays(year, month)
  {
    assert month == 0 || month == 1 || month == 2 || month == 3 || month == 4 || month == 5
        || month == 6 || month == 7 || month == 8 || month == 9 || month == 10;
  }

  // ----- Dates from March

  /** A day by its era of 400 years, the year of the era, its month from March and its day. */
  datatype MarchDate = MarchDate(era: int, year: int, month: int, day: int)

  predicate ValidMarch(m: MarchDate) {
    0 <= m.year < 400 && 0 <= m.month <= 11 && 1 <= m.day <= MonthDays(m.year, m.month)
  }

  function NextMarch(m: MarchDate): MarchDate {
    if m.day < MonthDays(m.year, m.month) then m.(day := m.day + 1)
    else if m.month < 11 then MarchDate(m.era, m.year, m.month + 1, 1)
    else if m.year < 399 then MarchDate(m.era, m.year + 1, 0, 1)
    else MarchDate(m.era + 1, 0, 0, 1)
  }

  function DayOfYear(m: MarchDate): int {
    MonthStart(m.month) + m.day - 1
  }

  /** The number of a day, from 1 March of the year 0. */
  function Number(m: MarchDate): int {
    146097 * m.era + YearStart(m.year) + DayOfYear(m)
  }

  lemma DayOfYearBounds(m: MarchDate)
    requires ValidMarch(m)
    ensures MonthStart(m.month) <= DayOfYear(m) && (m.month < 11 ==> DayOfYear(m) < MonthStart(m.month + 1))
    ensures 0 <= DayOfYear(m) < if Leap(m.year + 1) then 366 else 365
  {
    if m.month < 11 {
      MonthLength(m.year, m.month);
      MonthStartGrows(m.month + 1, 11);
    }
  }

  lemma MonthStartGrows(k: int, l: int)
    requires 0 <= k <= l <= 11
    ensures MonthStart(k) <= MonthStart(l) && MonthStart(11) == 337
  {
  }

  lemma NumberNext(m: MarchDate)
    requires ValidMarch(m)
    ensures ValidMarch(NextMarch(m)) && Number(NextMarch(m)) == Number(m) + 1
  {
    if m.day == MonthDays(m.year, m.month) {
      if m.month < 11 {
        MonthLength(m.year, m.month);
      } else {
        LastDay(m);
      }
    }
  }

  lemma LastDay(m: MarchDate)
    requires ValidMarch(m) && m.month == 11 && m.day == MonthDays(m.year, m.month)
    ensures YearStart(m.year) + DayOfYear(m) + 1 == if m.year == 399 then 146097 else YearStart(m.year + 1)
  {
    YearLength(m.year);
  }

  /** The day's number within its era and year determine them. */
  lemma DayOfEraBounds(m: MarchDate)
    requires ValidMarch(m)
    ensures YearStart(m.year) <= Number(m) - 146097 * m.era < 146097
    ensures m.year < 399 ==> Number(m) - 146097 * m.era < YearStart(m.year + 1)
  {
    DayOfYearBounds(m);
    YearLength(m.year);
    if m.year < 399 {
      YearStartGrows(m.year, 399);
    }
  }

  lemma NumberUnique(m: MarchDate, n: MarchDate)
    requires ValidMarch(m) && ValidMarch(n) && Number(m) == Number(n)
    ensures m == n
  {
    DayOfEraBounds(m);
    DayOfEraBounds(n);
    SameEra(m.era, Number(m) - 146097 * m.era, n.era, Number(n) - 146097 * n.era);
    if m.year < n.year {
      YearStartGrows(m.year, n.year);
    } else if n.year < m.year {
      YearStartGrows(n.year, m.year);
    }
    SameDayOfYear(m, n);
  }

  lemma SameEra(e: int, x: int, f: int, y: int)
    requires 0 <= x < 146097 && 0 <= y < 146097 && 146097 * e + x == 146097 * f + y
    ensures e == f
  {
  }

  lemma SameDayOfYear(m: MarchDate, n: MarchDate)
    requires ValidMarch(m) && ValidMarch(n) && DayOfYear(m) == DayOfYear(n)
    ensures m.month == n.month && m.day == n.day
  {
    DayOfYearBounds(m);
    DayOfYearBounds(n);
    if m.month < n.month {
      MonthStartGrows(m.month + 1, n.month);
    } else if n.month < m.month {
      MonthStartGrows(n.month + 1, m.month);
    }
  }

  /** The date in the calendar. */
  function ToDate(m: MarchDate): Date {
    var year := m.year + m.era * 400;
    if m.month < 10 then Date(year, m.month + 3, m.day) else Date(year + 1, m.month - 9, m.day)
  }

  lemma MonthDaysRight(m: MarchDate)
    requires ValidMarch(m)
    ensures MonthDays(m.year, m.month) == DaysInMonth(ToDate(m).year, ToDate(m).month)
  {
    SameEraYear(m.era, m.year + 1);
  }

  lemma ToDateNext(m: MarchDate)
    requires ValidMarch(m)
    ensures ToDate(NextMarch(m)) == NextDay(ToDate(m))
  {
    MonthDaysRight(m);
  }

  // ----- The calendar, from March

  const EPOCH := MarchDate(4, 369, 10, 1)
  const EPOCH_NUMBER := 719468

  /** Every day of the calendar is a day from March with the next number. */
  lemma {:induction false} FromEpoch(n: nat) returns (m: MarchDate)
    ensures ValidMarch(m) && Number(m) == n + EPOCH_NUMBER && ToDate(m) == DateOf(n)
  {
    if n == 0 {
      m := EPOCH;
    } else {
      var before := FromEpoch(n - 1);
      NumberNext(before);
      ToDateNext(before);
      m := NextMarch(before);
    }
  }

  /** The day of the era by the formula. */
  function Converted(era: int, doe: int): MarchDate {
    var yoe := YearOfEra(doe);
    var doy := doe - YearStart(yoe);
    MarchDate(era, yoe, MonthOfYear(doy), doy - MonthStart(MonthOfYear(doy)) + 1)
  }

  lemma ConvertedRight(era: int, doe: int)
    requires 0 <= doe < 146097
    ensures ValidMarch(Converted(era, doe)) && Number(Converted(era, doe)) == 146097 * era + doe
  {
    var yoe := YearOfEra(doe);
    YearOfEraRight(doe);
    YearLength(yoe);
    DayInMonth(yoe, doe - YearStart(yoe));
  }

  lemma DayInMonth(year: int, doy: int)
    requires 0 <= doy < if Leap(year + 1) then 366 else 365
    ensures var month := MonthOfYear(doy);
      0 <= month <= 11 && 1 <= doy - MonthStart(month) + 1 <= MonthDays(year, month)
  {
    MonthOfYearRight(doy);
    var month := MonthOfYear(doy);
    if month < 11 {
      MonthLength(year, month);
    } else {
      MonthStartGrows(11, 11);
    }
  }

  // ----- Machine integers

  const U64_MAX := 0xffff_ffff_ffff_ffff
  const DAY_SECONDS := 86400

  /** The division of signed integers, which drops the fraction. */
  function Truncated(a: int, b: int): int
    requires b > 0
  {
    if a >= 0 then a / b else -(-a / b)
  }

  /** The year, the month and the day cut to 16, 8 and 8 bits. The day number is that of a
      64-bit count of seconds, so its sum with the offset fits 64 signed bits. */
  function CivilDate(days: nat): Date
    requires days <= U64_MAX / DAY_SECONDS
  {
    var z := days + 719468;
    CivilDateOfEra(EraOf(z), (z - EraOf(z) * 146097) % (U64_MAX + 1))
  }

  function EraOf(z: int): int {
    Truncated(if z >= 0 then z else z - 146096, 146097)
  }

  function CivilDateOfEra(era: int, doe: int): Date {
    var yoe := (doe - doe / 1460 + doe / 36524 - doe / 146096) / 365;
    var year := yoe + era * 400;
    var doy := doe - (365 * yoe + yoe / 4 - yoe / 100);
    var mp := (5 * doy + 2) / 153;
    InBits(year, mp, doy - (153 * mp + 2) / 5 + 1)
  }

  /** The calendar's fields of a date from March, cut to their widths. */
  function InBits(year: int, mp: int, day: int): Date {
    var month := if mp < 10 then (mp + 3) % 256 else (mp - 9) % 256;
    Date((if month <= 2 then year + 1 else year) % 65536, month, day % 256)
  }

  /** A date with its year cut to 16 bits. */
  function Cut(d: Date): Date {
    d.(year := d.year % 65536)
  }

  lemma FitsByte(x: int)
    requires 0 <= x < 256
    ensures x % 256 == x
  {
  }

  lemma InBitsRight(m: MarchDate)
    requires ValidMarch(m)
    ensures InBits(m.year + m.era * 400, m.month, m.day) == Cut(ToDate(m))
  {
    assert m.day <= 31;
    FitsByte(m.day);
    FitsByte(if m.month < 10 then m.month + 3 else m.month - 9);
  }

  lemma SameFormula(era: int, doe: int)
    ensures var m := Converted(era, doe); CivilDateOfEra(era, doe) == InBits(m.year + m.era * 400, m.month, m.day)
  {
  }

  lemma EraRight(z: int)
    requires 0 <= z <= U64_MAX
    ensures var doe := (z - EraOf(z) * 146097) % (U64_MAX + 1); 0 <= doe < 146097 && 146097 * EraOf(z) + doe == z
  {
    assert EraOf(z) == z / 146097;
    var doe := z - z / 146097 * 146097;
    assert doe == z % 146097;
  }

  lemma ConvertedDate(days: nat, era: int, doe: int)
    requires 0 <= doe < 146097 && 146097 * era + doe == days + EPOCH_NUMBER
    ensures ToDate(Converted(era, doe)) == DateOf(days)
  {
    var m := FromEpoch(days);
    ConvertedRight(era, doe);
    NumberUnique(m, Converted(era, doe));
  }

  lemma CivilDateOfEraRight(days: nat, era: int, doe: int)
    requires 0 <= doe < 146097 && 146097 * era + doe == days + EPOCH_NUMBER
    ensures CivilDateOfEra(era, doe) == Cut(DateOf(days))
  {
    SameFormula(era, doe);
    ConvertedRight(era, doe);
    InBitsRight(Converted(era, doe));
    ConvertedDate(days, era, doe);
  }

  /** The date is the calendar's with the year cut to 16 bits. */
  lemma CivilDateRight(days: nat)
    requires days <= U64_MAX / DAY_SECONDS
    ensures CivilDate(days) == Cut(DateOf(days))
  {
    var z := days + 719468;
    EraRight(z);
    CivilDateOfEraRight(days, EraOf(z), (z - EraOf(z) * 146097) % (U64_MAX + 1));
  }

  /** The first day whose year does not fit in 16 bits. */
  const FIRST_OVERFLOW := 23217004

  /** The date is exactly the calendar's up to the end of the year 65535. */
  lemma CivilDateExactly(days: nat)
    requires days <= U64_MAX / DAY_SECONDS
    ensures CivilDate(days) == DateOf(days) <==> days < FIRST_OVERFLOW
  {
    CivilDateRight(days);
    OverflowDay();
    YearBounds(days);
    CutOff(DateOf(days).year);
  }

  lemma CutOff(year: int)
    requires 0 <= year
    ensures year % 65536 == year <==> year < 65536
  {
  }

  lemma OverflowDay()
    ensures DateOf(FIRST_OVERFLOW) == Date(65536, 1, 1)
  {
    var m := FromEpoch(FIRST_OVERFLOW);
    NumberUnique(m, MarchDate(163, 335, 10, 1));
  }

  lemma YearBounds(days: nat)
    requires DateOf(FIRST_OVERFLOW) == Date(65536, 1, 1)
    ensures 1970 <= DateOf(days).year && (DateOf(days).year < 65536 <==> days < FIRST_OVERFLOW)
  {
    DateOfValid(days);
    if 0 < days {
      DateOfMonotone(0, days);
    }
    if days < FIRST_OVERFLOW {
      DateOfMonotone(days, FIRST_OVERFLOW);
    } else if days > FIRST_OVERFLOW {
      DateOfMonotone(FIRST_OVERFLOW, days);
    }
  }
}
