/** Civil dates from day counts and back: the proleptic Gregorian calendar. */
module Dates {
  import opened Results

  // ---- as computed ----

  /** Division toward zero by a positive divisor. */
  function Truncate(a: int, b: int): int
    requires b > 0
  {
    if a >= 0 then a / b else -((-a) / b)
  }

  datatype Date = Date(year: int, month: int, day: int)

  /** Days of a four-hundred-year era before the year, each beginning in March. */
  function EraDays(yoe: int): int {
    365 * yoe + yoe / 4 - yoe / 100
  }

  function MonthStart(mp: int): int {
    (153 * mp + 2) / 5
  }

  /** Only years 1 to 9999, months 1 to 12 and days 1 to 31 are taken. */
  function DaysFromCivil(y: int, m: int, d: int): Option<int> {
    if !(1 <= y <= 9999) || !(1 <= m <= 12) || !(1 <= d <= 31) then None
    else
      var year := if m <= 2 then y - 1 else y;
      var era := Truncate(if year >= 0 then year else year - 399, 400);
      var yoe := year - era * 400;
      var mp := (m + 9) % 12;
      var doy := MonthStart(mp) + d - 1;
      Some(era * 146_097 + (EraDays(yoe) + doy) - 719_468)
  }

  function YearOfEra(doe: int): int {
    (doe - doe / 1460 + doe / 36524 - doe / 146_096) / 365
  }

  function CivilFromDays(days: int): Date {
    var z := days + 719_468;
    var era := Truncate(if z >= 0 then z else z - 146_096, 146_097);
    CivilOfEra(era, z - era * 146_097)
  }

  function CivilOfEra(era: int, doe: int): Date {
    var yoe := YearOfEra(doe);
    CivilOfDay(era, yoe, doe - EraDays(yoe))
  }

  function CivilOfDay(era: int, yoe: int, doy: int): Date {
    var mp := (5 * doy + 2) / 153;
    Unshift(Shifted(yoe + era * 400, mp, doy - MonthStart(mp) + 1))
  }

  /** A year, month and day counted from March: the leap day is last. */
  datatype Shifted = Shifted(year: int, mp: int, day: int)

  function Unshift(s: Shifted): Date {
    var m := if s.mp < 10 then s.mp + 3 else s.mp - 9;
    Date(if m <= 2 then s.year + 1 else s.year, m, s.day)
  }

  // ---- the calendar itself ----

  predicate IsLeap(year: int) {
    year % 4 == 0 && (year % 100 != 0 || year % 400 == 0)
  }

  function MonthLength(year: int, month: int): int {
    if month == 2 then (if IsLeap(year) then 29 else 28)
    else if month == 4 || month == 6 || month == 9 || month == 11 then 30
    else 31
  }

  predicate IsDate(t: Date) {
    1 <= t.month <= 12 && 1 <= t.day <= MonthLength(t.year, t.month)
  }

  /** The next day of the calendar. */
  function NextDay(t: Date): Date {
    if t.day < MonthLength(t.year, t.month) then Date(t.year, t.month, t.day + 1)
    else if t.month < 12 then Date(t.year, t.month + 1, 1)
    else Date(t.year + 1, 1, 1)
  }

  // ---- years beginning in March ----

  function Shift(t: Date): Shifted {
    Shifted(if t.month <= 2 then t.year - 1 else t.year, if t.month > 2 then t.month - 3 else t.month + 9, t.day)
  }

  function YearStart(year: int): int {
    365 * year + year / 4 - year / 100 + year / 400
  }

  /** Days since March 1 of year 0, for any date. */
  function Number(t: Date): int {
    var s := Shift(t);
    YearStart(s.year) + MonthStart(s.mp) + s.day - 1
  }

  lemma EraOfDays(z: int)
    ensures Truncate(if z >= 0 then z else z - 146_096, 146_097) == z / 146_097
  {}

  // ---- the year of an era ----

  /** A day of the era by century, leap cycle, year and day. The last day of a
      cycle is its leap day, which three centuries out of four go without. */
  predicate Parts(c: int, q: int, r: int, t: int) {
    && 0 <= c <= 3 && 0 <= q <= 24 && 0 <= r <= 3
    && 0 <= t <= 365 && (t == 365 ==> r == 3 && (q < 24 || c == 3))
  }

  function DayOfParts(c: int, q: int, r: int, t: int): int {
    36_524 * c + 1461 * q + 365 * r + t
  }

  lemma FindParts(doe: int) returns (c: int, q: int, r: int, t: int)
    requires 0 <= doe < 146_097
    ensures Parts(c, q, r, t) && doe == DayOfParts(c, q, r, t)
  {
    c := if doe / 36_524 < 3 then doe / 36_524 else 3;
    var day := doe - 36_524 * c;
    assert 0 <= day <= 36_524 && (c < 3 ==> day < 36_524);
    q := day / 1461;
    var rest := day - 1461 * q;
    r := if rest / 365 < 3 then rest / 365 else 3;
    t := rest - 365 * r;
  }

  lemma Over1460(x: int, k: int)
    requires 1460 * k <= x < 1460 * k + 1460
    ensures x / 1460 == k
  {}

  lemma Over36524(x: int, k: int)
    requires 36_524 * k <= x < 36_524 * k + 36_524
    ensures x / 36_524 == k
  {}

  lemma Over365(x: int, k: int)
    requires 365 * k <= x < 365 * k + 365
    ensures x / 365 == k
  {}

  /** The year of the era is read off its parts exactly. */
  lemma YearOfParts(c: int, q: int, r: int, t: int)
    requires Parts(c, q, r, t)
    ensures YearOfEra(DayOfParts(c, q, r, t)) == 100 * c + 4 * q + r
  {
    var doe := DayOfParts(c, q, r, t);
    var over := 24 * c + q + 365 * r + t;
    var e := if over >= 1460 then 1 else 0;
    var last := if doe == 146_096 then 1 else 0;
    assert doe == 1460 * (25 * c + q) + over;
    Over1460(doe, 25 * c + q + e);
    Over36524(doe, c + last);
    assert doe / 146_096 == last;
    Over365(36_500 * c + 1460 * q + 365 * r + t - e, 100 * c + 4 * q + r);
  }

  lemma EraDaysOfParts(c: int, q: int, r: int)
    requires 0 <= c <= 3 && 0 <= q <= 24 && 0 <= r <= 3
    ensures EraDays(100 * c + 4 * q + r) == 36_524 * c + 1461 * q + 365 * r
  {}

  lemma LeapOfParts(c: int, q: int, r: int, era: int)
    requires 0 <= c <= 3 && 0 <= q <= 24 && 0 <= r <= 3
    ensures IsLeap(400 * era + 100 * c + 4 * q + r + 1) <==> r == 3 && (q < 24 || c == 3)
  {}

  lemma Over4(era: int, yoe: int)
    ensures (400 * era + yoe) / 4 == 100 * era + yoe / 4
  {}

  lemma Over100(era: int, yoe: int)
    ensures (400 * era + yoe) / 100 == 4 * era + yoe / 100
  {}

  lemma Over400(era: int, yoe: int)
    requires 0 <= yoe < 400
    ensures (400 * era + yoe) / 400 == era
  {}

  lemma YearStartOfEra(era: int, yoe: int)
    requires 0 <= yoe < 400
    ensures YearStart(400 * era + yoe) == 146_097 * era + EraDays(yoe)
  {
    Over4(era, yoe);
    Over100(era, yoe);
    Over400(era, yoe);
    YearStartSums(400 * era + yoe, 100 * era + yoe / 4, 4 * era + yoe / 100, era);
  }

  lemma YearStartSums(year: int, fours: int, hundreds: int, eras: int)
    requires year / 4 == fours && year / 100 == hundreds && year / 400 == eras
    ensures YearStart(year) == 365 * year + fours - hundreds + eras
  {}

  // ---- months ----

  /** The month of a day of the March year, and the day of that month. */
  lemma MonthOfDay(doy: int)
    requires 0 <= doy <= 365
    ensures
      var mp := (5 * doy + 2) / 153;
      && 0 <= mp <= 11 && MonthStart(mp) <= doy
      && (mp < 11 ==> doy < MonthStart(mp + 1))
  {}

  lemma DayOfMonth(mp: int, doy: int)
    requires 0 <= mp <= 11 && MonthStart(mp) <= doy <= 365 && (mp < 11 ==> doy < MonthStart(mp + 1))
    ensures (5 * doy + 2) / 153 == mp
  {}

  /** Months from March run 31, 30, 31, 30, 31, 31, 30, 31, 30, 31, 31. */
  lemma MonthLengths(year: int, month: int)
    requires 1 <= month <= 12
    ensures
      var mp := if month > 2 then month - 3 else month + 9;
      && (month != 2 ==> MonthLength(year, month) == MonthStart(mp + 1) - MonthStart(mp))
      && (month == 2 ==> MonthStart(mp) + MonthLength(year, month) == if IsLeap(year) then 366 else 365)
  {}

  // ---- numbers and dates are one to one ----

  lemma DayOfEra(days: int, era: int, doe: int)
    requires days + 719_468 == 146_097 * era + doe && 0 <= doe < 146_097
    ensures CivilFromDays(days) == CivilOfEra(era, doe)
  {
    var z := days + 719_468;
    EraOfDays(z);
    assert z / 146_097 == era;
    assert z - era * 146_097 == doe;
  }

  lemma PartsInEra(c: int, q: int, r: int, t: int)
    requires Parts(c, q, r, t)
    ensures 0 <= DayOfParts(c, q, r, t) < 146_097
  {}

  lemma EraStep(era: int, doe: int, yoe: int, doy: int)
    requires YearOfEra(doe) == yoe && doe - EraDays(yoe) == doy
    ensures CivilOfEra(era, doe) == CivilOfDay(era, yoe, doy)
  {}

  lemma PartsAfterYear(c: int, q: int, r: int, t: int)
    requires Parts(c, q, r, t)
    ensures DayOfParts(c, q, r, t) - EraDays(100 * c + 4 * q + r) == t
  {
    EraDaysOfParts(c, q, r);
  }

  /** A day given by its era and parts: what is computed of it. */
  lemma CivilOfParts(days: int, era: int, c: int, q: int, r: int, t: int)
    requires Parts(c, q, r, t) && days + 719_468 == 146_097 * era + DayOfParts(c, q, r, t)
    ensures CivilFromDays(days) == CivilOfDay(era, 100 * c + 4 * q + r, t)
  {
    PartsInEra(c, q, r, t);
    PartsAfterYear(c, q, r, t);
    YearOfParts(c, q, r, t);
    DayOfEra(days, era, DayOfParts(c, q, r, t));
    EraStep(era, DayOfParts(c, q, r, t), 100 * c + 4 * q + r, t);
  }

  lemma NumberOfParts(era: int, c: int, q: int, r: int, t: int)
    requires Parts(c, q, r, t)
    ensures YearStart(400 * era + (100 * c + 4 * q + r)) + t == 146_097 * era + DayOfParts(c, q, r, t)
  {
    YearStartOfEra(era, 100 * c + 4 * q + r);
    EraDaysOfParts(c, q, r);
  }

  lemma EraParts(z: int) returns (era: int, c: int, q: int, r: int, t: int)
    ensures Parts(c, q, r, t) && z == 146_097 * era + DayOfParts(c, q, r, t)
  {
    era := z / 146_097;
    c, q, r, t := FindParts(z - 146_097 * era);
  }

  /** The computed date is a date of the calendar, and its number is the day. */
  lemma CivilIsDate(days: int)
    ensures IsDate(CivilFromDays(days)) && Number(CivilFromDays(days)) == days + 719_468
  {
    var era, c, q, r, t := EraParts(days + 719_468);
    CivilOfParts(days, era, c, q, r, t);
    NumberOfParts(era, c, q, r, t);
    LeapOfParts(c, q, r, era);
    CivilOfYear(era, 100 * c + 4 * q + r, t);
  }

  lemma CivilOfYear(era: int, yoe: int, doy: int)
    requires 0 <= yoe < 400 && 0 <= doy <= 365 && (doy == 365 ==> IsLeap(400 * era + yoe + 1))
    ensures IsDate(CivilOfDay(era, yoe, doy))
    ensures Number(CivilOfDay(era, yoe, doy)) == YearStart(400 * era + yoe) + doy
  {
    MonthOfDay(doy);
    var t := Shifted(400 * era + yoe, (5 * doy + 2) / 153, doy - MonthStart((5 * doy + 2) / 153) + 1);
    CivilIsUnshifted(era, yoe, doy, t);
    UnshiftDate(t, doy);
  }

  lemma CivilIsUnshifted(era: int, yoe: int, doy: int, t: Shifted)
    requires 0 <= yoe < 400 && 0 <= doy <= 365
    requires t == Shifted(400 * era + yoe, (5 * doy + 2) / 153, doy - MonthStart((5 * doy + 2) / 153) + 1)
    ensures CivilOfDay(era, yoe, doy) == Unshift(t)
  {}

  lemma UnshiftDate(s: Shifted, doy: int)
    requires 0 <= s.mp <= 11 && s.day == doy - MonthStart(s.mp) + 1 && 1 <= s.day && 0 <= doy <= 365
    requires (s.mp < 11 ==> doy < MonthStart(s.mp + 1)) && (doy == 365 ==> IsLeap(s.year + 1))
    ensures IsDate(Unshift(s)) && Shift(Unshift(s)) == s
  {
    var t := Unshift(s);
    MonthLengths(t.year, t.month);
  }

  /** The era and the parts that a date's March year falls into. */
  lemma PartsOfDate(t: Date) returns (era: int, c: int, q: int, r: int)
    requires IsDate(t)
    ensures
      var s := Shift(t);
      var doy := MonthStart(s.mp) + s.day - 1;
      && s.year == 400 * era + 100 * c + 4 * q + r
      && Parts(c, q, r, doy)
      && (s.mp < 11 ==> doy < MonthStart(s.mp + 1)) && 0 <= s.mp <= 11
  {
    var s := Shift(t);
    MonthLengths(t.year, t.month);
    era := s.year / 400;
    var yoe := s.year - 400 * era;
    c := yoe / 100;
    q := (yoe - 100 * c) / 4;
    r := yoe - 100 * c - 4 * q;
    LeapOfParts(c, q, r, era);
  }

  /** Every date of the calendar is the one its number gives back. */
  lemma DateIsCivil(t: Date)
    requires IsDate(t)
    ensures CivilFromDays(Number(t) - 719_468) == t
  {
    var s := Shift(t);
    var doy := MonthStart(s.mp) + s.day - 1;
    var era, c, q, r := PartsOfDate(t);
    var yoe := 100 * c + 4 * q + r;
    NumberOfDate(t, era, c, q, r);
    CivilOfParts(Number(t) - 719_468, era, c, q, r, doy);
    DayOfMonth(s.mp, doy);
    DayStep(era, yoe, doy, s);
    Unshifted(t);
  }

  lemma NumberOfDate(t: Date, era: int, c: int, q: int, r: int)
    requires
      var s := Shift(t);
      s.year == 400 * era + 100 * c + 4 * q + r && Parts(c, q, r, MonthStart(s.mp) + s.day - 1)
    ensures Number(t) == 146_097 * era + DayOfParts(c, q, r, MonthStart(Shift(t).mp) + Shift(t).day - 1)
  {
    var s := Shift(t);
    NumberOfParts(era, c, q, r, MonthStart(s.mp) + s.day - 1);
  }

  lemma DayStep(era: int, yoe: int, doy: int, s: Shifted)
    requires (5 * doy + 2) / 153 == s.mp && s.year == yoe + era * 400 && s.day == doy - MonthStart(s.mp) + 1
    ensures CivilOfDay(era, yoe, doy) == Unshift(s)
  {}

  lemma Unshifted(t: Date)
    requires 1 <= t.month <= 12
    ensures Unshift(Shift(t)) == t
  {}

  /** `DaysFromCivil` is the number of the date, for any day it takes. */
  lemma DaysAreNumber(y: int, m: int, d: int)
    requires 1 <= y <= 9999 && 1 <= m <= 12 && 1 <= d <= 31
    ensures DaysFromCivil(y, m, d) == Some(Number(Date(y, m, d)) - 719_468)
  {
    var year := if m <= 2 then y - 1 else y;
    var era := year / 400;
    YearStartOfEra(era, year - 400 * era);
    assert (m + 9) % 12 == Shift(Date(y, m, d)).mp;
    DaysOfYear(y, m, d, era, year - 400 * era);
  }

  lemma DaysOfYear(y: int, m: int, d: int, era: int, yoe: int)
    requires 1 <= y <= 9999 && 1 <= m <= 12 && 1 <= d <= 31 && 0 <= yoe < 400
    requires (if m <= 2 then y - 1 else y) == 400 * era + yoe
    ensures DaysFromCivil(y, m, d) == Some(era * 146_097 + (EraDays(yoe) + (MonthStart((m + 9) % 12) + d - 1)) - 719_468)
  {
    Over400(era, yoe);
  }

  // ---- the main results ----

  /** Dates to days and back: the identity on real dates of years 1 to 9999. */
  lemma DateRoundTrip(t: Date)
    requires IsDate(t) && 1 <= t.year <= 9999
    ensures DaysFromCivil(t.year, t.month, t.day).Some?
    ensures CivilFromDays(DaysFromCivil(t.year, t.month, t.day).value) == t
  {
    assert t.day <= 31;
    DaysAreNumber(t.year, t.month, t.day);
    DateIsCivil(t);
  }

  /** Days to dates and back: the identity while the year is 1 to 9999. */
  lemma DayRoundTrip(days: int)
    requires 1 <= CivilFromDays(days).year <= 9999
    ensures
      var t := CivilFromDays(days);
      DaysFromCivil(t.year, t.month, t.day) == Some(days)
  {
    CivilIsDate(days);
    var t := CivilFromDays(days);
    assert t.day <= 31;
    DaysAreNumber(t.year, t.month, t.day);
  }

  lemma NextNumber(t: Date)
    requires IsDate(t)
    ensures IsDate(NextDay(t)) && Number(NextDay(t)) == Number(t) + 1
  {
    MonthLengths(t.year, t.month);
    if t.day == MonthLength(t.year, t.month) && t.month == 2 {
      YearTurns(t.year);
    }
  }

  lemma YearTurns(year: int)
    ensures YearStart(year) == YearStart(year - 1) + if IsLeap(year) then 366 else 365
  {
    Turn4(year);
    Turn100(year);
    Turn400(year);
    YearStartSums(year, year / 4, year / 100, year / 400);
    YearStartSums(year - 1, (year - 1) / 4, (year - 1) / 100, (year - 1) / 400);
  }

  lemma Turn4(year: int)
    ensures year / 4 == (year - 1) / 4 + if year % 4 == 0 then 1 else 0
  {}

  lemma Turn100(year: int)
    ensures year / 100 == (year - 1) / 100 + if year % 100 == 0 then 1 else 0
    ensures year % 100 == 0 ==> year % 4 == 0
  {}

  lemma Turn400(year: int)
    ensures year / 400 == (year - 1) / 400 + if year % 400 == 0 then 1 else 0
    ensures year % 400 == 0 ==> year % 100 == 0
  {}

  /** The date of the next day is the next day of the calendar. */
  lemma Successor(days: int)
    ensures CivilFromDays(days + 1) == NextDay(CivilFromDays(days))
  {
    CivilIsDate(days);
    NextNumber(CivilFromDays(days));
    DateIsCivil(NextDay(CivilFromDays(days)));
  }

  /** It all starts on Thursday, 1 January 1970. */
  lemma Epoch()
    ensures CivilFromDays(0) == Date(1970, 1, 1) && DayOfWeek(0) == 4
  {
    var days := DaysFromCivil(1970, 1, 1);
    assert days == Some(0);
    DateRoundTrip(Date(1970, 1, 1));
  }

  // ---- accessors ----

  /** Monday is 1 and Sunday 7. */
  function DayOfWeek(days: int): (w: int)
    ensures 1 <= w <= 7
  {
    (days + 3) % 7 + 1
  }

  function DayOfYear(days: int): int {
    var jan1 := DaysFromCivil(CivilFromDays(days).year, 1, 1);
    days - (if jan1.Some? then jan1.value else 0) + 1
  }

  lemma WeekTurns(days: int)
    ensures DayOfWeek(days + 1) == if DayOfWeek(days) == 7 then 1 else DayOfWeek(days) + 1
  {}

  /** The day of the year is 1 on January 1 and counts the days since. */
  lemma DayOfYearCounts(days: int)
    requires 1 <= CivilFromDays(days).year <= 9999 && 1 <= CivilFromDays(days + 1).year <= 9999
    ensures
      var t, next := CivilFromDays(days), CivilFromDays(days + 1);
      DayOfYear(days + 1) == if next.year == t.year then DayOfYear(days) + 1 else 1
  {
    Successor(days);
    var t, next := CivilFromDays(days), CivilFromDays(days + 1);
    DayRoundTrip(days + 1);
    NewYear(t, next);
    assert DaysFromCivil(next.year, 1, 1).Some?;
  }

  lemma NewYear(t: Date, next: Date)
    requires next == NextDay(t)
    ensures next.year != t.year ==> next == Date(next.year, 1, 1)
  {}
}
