/** RFC 3339 section 5.6 date-times of microsecond timestamps. */
module Rfc3339 {
  import opened Results
  import opened Dates

  function Pow10(width: nat): nat {
    if width == 0 then 1 else 10 * Pow10(width - 1)
  }

  function Digit(n: nat): char
    requires n < 10
  {
    '0' + n as char
  }

  /** The last `width` decimal digits of a number: zero-padded if it has fewer. */
  function Digits(n: nat, width: nat): (s: string)
    ensures |s| == width
    decreases width
  {
    if width == 0 then "" else Digits(n / 10, width - 1) + [Digit(n % 10)]
  }

  function Read(s: string): nat {
    if s == "" then 0 else 10 * Read(s[..|s| - 1]) + (if '0' <= s[|s| - 1] <= '9' then (s[|s| - 1] - '0') as nat else 0)
  }

  lemma {:induction false} ReadDigits(n: nat, width: nat)
    requires n < Pow10(width)
    ensures Read(Digits(n, width)) == n
    decreases width
  {
    if width > 0 {
      ReadDigits(n / 10, width - 1);
      var s := Digits(n, width);
      assert s[..|s| - 1] == Digits(n / 10, width - 1);
    }
  }

  /** The broken-down time of a microsecond timestamp. */
  datatype Clock = Clock(date: Date, hours: nat, minutes: nat, seconds: nat, micros: nat)

  function ClockOf(us: int): Clock {
    var secs := us / 1_000_000;
    var sod := secs % 86_400;
    Clock(CivilFromDays(secs / 86_400), sod / 3600, sod / 60 % 60, sod % 60, us % 1_000_000)
  }

  function Date10(t: Date): string
    requires 0 <= t.year && 0 <= t.month && 0 <= t.day
  {
    Digits(t.year, 4) + "-" + Digits(t.month, 2) + "-" + Digits(t.day, 2)
  }

  function Time15(c: Clock): string {
    Digits(c.hours, 2) + ":" + Digits(c.minutes, 2) + ":" + Digits(c.seconds, 2) + "." + Digits(c.micros, 6)
  }

  function Printed(c: Clock): string
    requires IsDate(c.date) && 0 <= c.date.year
  {
    Date10(c.date) + "T" + Time15(c) + "Z"
  }

  /** As the server prints them; four digits hold the years up to 9999. */
  function Format(us: int): string
    requires 0 <= CivilFromDays(us / 1_000_000 / 86_400).year <= 9999
  {
    CivilIsDate(us / 1_000_000 / 86_400);
    Printed(ClockOf(us))
  }

  // ---- reading one back ----

  function ReadDate(s: string): Date
    requires |s| == 10
  {
    Date(Read(s[..4]), Read(s[5..7]), Read(s[8..10]))
  }

  function ReadTime(s: string): nat
    requires |s| == 15
  {
    ((Read(s[..2]) * 60 + Read(s[3..5])) * 60 + Read(s[6..8])) * 1_000_000 + Read(s[9..15])
  }

  function Parse(s: string): Option<int> {
    if |s| != 27 || s[10] != 'T' || s[26] != 'Z' then None
    else
      var t := ReadDate(s[..10]);
      var days := DaysFromCivil(t.year, t.month, t.day);
      if days.None? then None else Some(days.value * 86_400 * 1_000_000 + ReadTime(s[11..26]))
  }

  lemma Pow10s()
    ensures Pow10(2) == 100 && Pow10(4) == 10_000 && Pow10(6) == 1_000_000
  {
    assert Pow10(2) == 100;
    assert Pow10(4) == 10_000;
  }

  lemma DateReads(t: Date)
    requires 0 <= t.year < 10_000 && 0 <= t.month < 100 && 0 <= t.day < 100
    ensures |Date10(t)| == 10 && ReadDate(Date10(t)) == t
  {
    Pow10s();
    ReadDigits(t.year, 4);
    ReadDigits(t.month, 2);
    ReadDigits(t.day, 2);
    var s := Date10(t);
    assert s[..4] == Digits(t.year, 4) && s[5..7] == Digits(t.month, 2) && s[8..10] == Digits(t.day, 2);
  }

  lemma TimeReads(c: Clock)
    requires c.hours < 100 && c.minutes < 100 && c.seconds < 100 && c.micros < 1_000_000
    ensures |Time15(c)| == 15
    ensures ReadTime(Time15(c)) == ((c.hours * 60 + c.minutes) * 60 + c.seconds) * 1_000_000 + c.micros
  {
    Pow10s();
    ReadDigits(c.hours, 2);
    ReadDigits(c.minutes, 2);
    ReadDigits(c.seconds, 2);
    ReadDigits(c.micros, 6);
    var s := Time15(c);
    assert s[..2] == Digits(c.hours, 2) && s[3..5] == Digits(c.minutes, 2);
    assert s[6..8] == Digits(c.seconds, 2) && s[9..15] == Digits(c.micros, 6);
  }

  lemma SecondsOfDay(sod: int)
    requires 0 <= sod < 86_400
    ensures (sod / 3600 * 60 + sod / 60 % 60) * 60 + sod % 60 == sod
    ensures 0 <= sod / 3600 < 24 && 0 <= sod / 60 % 60 < 60
  {}

  lemma ClockIsExact(us: int)
    ensures
      var c := ClockOf(us);
      && c.hours < 24 && c.minutes < 60 && c.seconds < 60 && c.micros < 1_000_000
      && us / 1_000_000 / 86_400 * 86_400 * 1_000_000 + ((c.hours * 60 + c.minutes) * 60 + c.seconds) * 1_000_000 + c.micros == us
  {
    SecondsOfDay(us / 1_000_000 % 86_400);
  }

  lemma Assembled(c: Clock)
    requires IsDate(c.date) && 0 <= c.date.year && |Date10(c.date)| == 10 && |Time15(c)| == 15
    ensures
      var s := Printed(c);
      |s| == 27 && s[10] == 'T' && s[26] == 'Z' && s[..10] == Date10(c.date) && s[11..26] == Time15(c)
  {}

  lemma ParseParts(us: int, s: string, date: string, time: string, t: Date, days: int)
    requires |s| == 27 && s[10] == 'T' && s[26] == 'Z' && s[..10] == date && s[11..26] == time
    requires ReadDate(date) == t && DaysFromCivil(t.year, t.month, t.day) == Some(days)
    requires days * 86_400 * 1_000_000 + ReadTime(time) == us
    ensures Parse(s) == Some(us)
  {}

  /** What stands at each position of a date-time: separators at seven of them,
      digits everywhere else. */
  predicate Stands(k: nat, c: char) {
    if k == 4 || k == 7 then c == '-'
    else if k == 10 then c == 'T'
    else if k == 13 || k == 16 then c == ':'
    else if k == 19 then c == '.'
    else if k == 26 then c == 'Z'
    else '0' <= c <= '9'
  }

  predicate Shaped(s: string) {
    |s| == 27 && forall k :: 0 <= k < 27 ==> Stands(k, s[k])
  }

  lemma {:induction false} DigitsOnly(n: nat, width: nat)
    ensures forall k :: 0 <= k < width ==> '0' <= Digits(n, width)[k] <= '9'
    decreases width
  {
    if width > 0 {
      DigitsOnly(n / 10, width - 1);
    }
  }

  lemma DateStands(t: Date)
    requires 0 <= t.year && 0 <= t.month && 0 <= t.day
    ensures |Date10(t)| == 10 && forall k :: 0 <= k < 10 ==> Stands(k, Date10(t)[k])
  {
    DigitsOnly(t.year, 4);
    DigitsOnly(t.month, 2);
    DigitsOnly(t.day, 2);
  }

  lemma TimeStands(c: Clock)
    ensures |Time15(c)| == 15 && forall k :: 0 <= k < 15 ==> Stands(11 + k, Time15(c)[k])
  {
    DigitsOnly(c.hours, 2);
    DigitsOnly(c.minutes, 2);
    DigitsOnly(c.seconds, 2);
    DigitsOnly(c.micros, 6);
  }

  /** Any year a date-time can print: the separators of RFC 3339 stand in their
      places, and every other character is a digit. */
  lemma FormatShaped(us: int)
    requires 0 <= CivilFromDays(us / 1_000_000 / 86_400).year <= 9999
    ensures Shaped(Format(us))
  {
    var c := ClockOf(us);
    CivilIsDate(us / 1_000_000 / 86_400);
    DateStands(c.date);
    TimeStands(c);
    Assembled(c);
    PartsShape(Printed(c), Date10(c.date), Time15(c));
  }

  lemma PartsShape(s: string, date: string, time: string)
    requires |s| == 27 && s[10] == 'T' && s[26] == 'Z' && s[..10] == date && s[11..26] == time
    requires |date| == 10 && forall k :: 0 <= k < 10 ==> Stands(k, date[k])
    requires |time| == 15 && forall k :: 0 <= k < 15 ==> Stands(11 + k, time[k])
    ensures Shaped(s)
  {
    forall k: nat | k < 27
      ensures Stands(k, s[k])
    {
      if k < 10 {
        assert s[k] == date[k];
      } else if 10 < k < 26 {
        assert s[k] == time[k - 11];
      }
    }
  }

  /** A formatted timestamp reads back as itself, to the microsecond, over the
      years 1 to 9999. */
  lemma FormatRoundTrip(us: int)
    requires 1 <= CivilFromDays(us / 1_000_000 / 86_400).year <= 9999
    ensures |Format(us)| == 27 && Parse(Format(us)) == Some(us)
  {
    var days := us / 1_000_000 / 86_400;
    var c := ClockOf(us);
    CivilIsDate(days);
    DayRoundTrip(days);
    ClockIsExact(us);
    PrintedRoundTrip(us, c, days);
  }

  lemma PrintedRoundTrip(us: int, c: Clock, days: int)
    requires 1 <= c.date.year <= 9999 && IsDate(c.date)
    requires c.hours < 24 && c.minutes < 60 && c.seconds < 60 && c.micros < 1_000_000
    requires DaysFromCivil(c.date.year, c.date.month, c.date.day) == Some(days)
    requires days * 86_400 * 1_000_000 + ((c.hours * 60 + c.minutes) * 60 + c.seconds) * 1_000_000 + c.micros == us
    ensures |Printed(c)| == 27 && Parse(Printed(c)) == Some(us)
  {
    TimeReads(c);
    assert c.date.day < 100;
    DateReads(c.date);
    Assembled(c);
    ParseParts(us, Printed(c), Date10(c.date), Time15(c), c.date, days);
  }
}
