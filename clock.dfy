/** Times of day, calendar dates and instants.

    The booking code carries times as zero-padded `HH:MM` strings and dates as
    `YYYY-MM-DD` strings, and turns `${date}T${time}` into a JavaScript `Date`
    (local time, millisecond precision) to compare it with `new Date()`. Here a
    time of day is a number of minutes since midnight, a date is a day ordinal
    (day 0 is 1970-01-01) and an instant is a number of milliseconds since the
    start of day 0; the current instant is always passed in as `now`. */
module Clock {
  import opened Wrappers
  import opened Text

  const MinutesPerHour := 60
  const MinutesPerDay := 1440
  const MillisPerMinute := 60000

  /** `s` has the shape `HH:MM`: two digits, a colon, two digits. */
  predicate TimeShape(s: string) {
    |s| == 5 && IsDigit(s[0]) && IsDigit(s[1]) && s[2] == ':' && IsDigit(s[3]) && IsDigit(s[4])
  }

  function HourOf(s: string): (h: nat)
    requires TimeShape(s)
    ensures h < 100
  {
    10 * DigitValue(s[0]) + DigitValue(s[1])
  }

  function MinuteOf(s: string): (m: nat)
    requires TimeShape(s)
    ensures m < 100
  {
    10 * DigitValue(s[3]) + DigitValue(s[4])
  }

  /** A zero-padded 24-hour time of day, as `<input type="time">` yields it. */
  predicate WellFormedTime(s: string) {
    TimeShape(s) && HourOf(s) < 24 && MinuteOf(s) < 60
  }

  /** Minutes since midnight of a well-formed `HH:MM`. */
  function TimeMinutes(s: string): (m: nat)
    requires WellFormedTime(s)
    ensures m < MinutesPerDay
    ensures m / MinutesPerHour == HourOf(s) && m % MinutesPerHour == MinuteOf(s)
  {
    MinutesPerHour * HourOf(s) + MinuteOf(s)
  }

  /** The zero-padded `HH:MM` text of a time of day. */
  function TimeText(m: nat): (s: string)
    requires m < MinutesPerDay
    ensures WellFormedTime(s) && TimeMinutes(s) == m
  {
    var h, mm := m / MinutesPerHour, m % MinutesPerHour;
    [DigitChar(h / 10), DigitChar(h % 10), ':', DigitChar(mm / 10), DigitChar(mm % 10)]
  }

  /** Distinct well-formed times denote distinct minutes: `TimeText` undoes `TimeMinutes`. */
  lemma TimeTextOfMinutes(s: string)
    requires WellFormedTime(s)
    ensures TimeText(TimeMinutes(s)) == s
  {
    var t := TimeText(TimeMinutes(s));
    assert HourOf(t) == HourOf(s) && MinuteOf(t) == MinuteOf(s);
    assert DigitValue(t[0]) == DigitValue(s[0]) && DigitValue(t[1]) == DigitValue(s[1]);
    assert DigitValue(t[3]) == DigitValue(s[3]) && DigitValue(t[4]) == DigitValue(s[4]);
  }

  /** Two digits compare as characters exactly as their values compare. */
  lemma DigitOrder(a: char, b: char)
    requires IsDigit(a) && IsDigit(b)
    ensures a < b <==> DigitValue(a) < DigitValue(b)
    ensures a == b <==> DigitValue(a) == DigitValue(b)
  {
  }

  /** Hours outweigh minutes: with minutes below 60, `60 * h + m` orders pairs lexicographically. */
  lemma PairOrder(h1: nat, m1: nat, h2: nat, m2: nat)
    requires m1 < 60 && m2 < 60
    ensures 60 * h1 + m1 < 60 * h2 + m2 <==> h1 < h2 || (h1 == h2 && m1 < m2)
  {
    if h1 < h2 {
      assert 60 * h1 + m1 < 60 * (h1 + 1) <= 60 * h2;
    } else if h1 > h2 {
      assert 60 * h2 + m2 < 60 * (h2 + 1) <= 60 * h1;
    }
  }

  /** For zero-padded `HH:MM` strings, JavaScript's string `<` is the order of
      the times they denote; so is `>=` its negation, the order the code's
      `start_time >= end_time` guard relies on. */
  lemma LexLessMatchesMinutes(s: string, t: string)
    requires WellFormedTime(s) && WellFormedTime(t)
    ensures LexLess(s, t) <==> TimeMinutes(s) < TimeMinutes(t)
  {
    assert LexLess(s, t) == if s[0] != t[0] then s[0] < t[0] else LexLess(s[1..], t[1..]);
    assert LexLess(s[1..], t[1..]) == if s[1] != t[1] then s[1] < t[1] else LexLess(s[2..], t[2..]);
    assert LexLess(s[2..], t[2..]) == LexLess(s[3..], t[3..]);
    assert LexLess(s[3..], t[3..]) == if s[3] != t[3] then s[3] < t[3] else LexLess(s[4..], t[4..]);
    assert LexLess(s[4..], t[4..]) == if s[4] != t[4] then s[4] < t[4] else LexLess(s[5..], t[5..]);
    assert !LexLess(s[5..], t[5..]);
    DigitOrder(s[0], t[0]);
    DigitOrder(s[1], t[1]);
    DigitOrder(s[3], t[3]);
    DigitOrder(s[4], t[4]);
    PairOrder(DigitValue(s[0]), DigitValue(s[1]), DigitValue(t[0]), DigitValue(t[1]));
    PairOrder(DigitValue(s[3]), DigitValue(s[4]), DigitValue(t[3]), DigitValue(t[4]));
    PairOrder(HourOf(s), MinuteOf(s), HourOf(t), MinuteOf(t));
  }

  /** The value of two decimal digits. */
  lemma TwoDigitValue(s: string)
    requires |s| == 2 && AllDigits(s)
    ensures DecimalValue(s) == 10 * DigitValue(s[0]) + DigitValue(s[1])
  {
    assert s[..1][..0] == [];
    assert DecimalValue(s[..1]) == DigitValue(s[0]);
  }

  /** How `split(':')` takes an `HH:MM` string apart: the hour digits and the
      minute digits; and it holds neither an `A` nor a `P`. */
  lemma TimeFields(s: string)
    requires TimeShape(s)
    ensures FirstField(s) == s[..2] && SecondField(s) == Some(s[3..])
    ensures AllDigits(s[..2]) && DecimalValue(s[..2]) == HourOf(s)
    ensures AllDigits(s[3..]) && DecimalValue(s[3..]) == MinuteOf(s)
    ensures !Contains(s, "AM") && !Contains(s, "PM")
  {
    IndexOfFirst(s, ':', 2);
    var rest := s[3..];
    IndexOfFirst(rest, ':', 2);
    assert rest[..2] == rest;
    TwoDigitValue(s[..2]);
    TwoDigitValue(rest);
    ContainsNeedsFirstChar(s, "AM");
    ContainsNeedsFirstChar(s, "PM");
  }

  /** `s` has the shape `YYYY-MM-DD`. */
  predicate DateShape(s: string) {
    && |s| == 10
    && IsDigit(s[0]) && IsDigit(s[1]) && IsDigit(s[2]) && IsDigit(s[3]) && s[4] == '-'
    && IsDigit(s[5]) && IsDigit(s[6]) && s[7] == '-' && IsDigit(s[8]) && IsDigit(s[9])
  }

  function YearOf(s: string): nat
    requires DateShape(s)
  {
    1000 * DigitValue(s[0]) + 100 * DigitValue(s[1]) + 10 * DigitValue(s[2]) + DigitValue(s[3])
  }

  function MonthOf(s: string): nat
    requires DateShape(s)
  {
    10 * DigitValue(s[5]) + DigitValue(s[6])
  }

  function DayOf(s: string): nat
    requires DateShape(s)
  {
    10 * DigitValue(s[8]) + DigitValue(s[9])
  }

  /** A date the engine's ISO parser accepts: month 1 to 12 and day 1 to 31; a
      day past the end of its month rolls over into the next month. */
  predicate WellFormedDate(s: string) {
    DateShape(s) && 1 <= MonthOf(s) <= 12 && 1 <= DayOf(s) <= 31
  }

  /** Days from 1970-01-01 to the given proleptic Gregorian date. */
  function DaysFromCivil(y: int, m: int, d: int): int
    requires 1 <= m <= 12
  {
    var y' := if m <= 2 then y - 1 else y;
    var era := y' / 400;
    var yearOfEra := y' - era * 400;
    var shiftedMonth := if m > 2 then m - 3 else m + 9;
    var dayOfYear := (153 * shiftedMonth + 2) / 5 + d - 1;
    var dayOfEra := yearOfEra * 365 + yearOfEra / 4 - yearOfEra / 100 + dayOfYear;
    era * 146097 + dayOfEra - 719468
  }

  /** A leap year of the proleptic Gregorian calendar. */
  predicate IsLeapYear(y: int) {
    y % 4 == 0 && (y % 100 != 0 || y % 400 == 0)
  }

  /** The number of days of month `m` of year `y`. */
  function DaysInMonth(y: int, m: int): (n: int)
    requires 1 <= m <= 12
    ensures 28 <= n <= 31
  {
    if m == 2 then (if IsLeapYear(y) then 29 else 28)
    else if m == 4 || m == 6 || m == 9 || m == 11 then 30
    else 31
  }

  /** Within an era, year `yoe` adds a leap day every fourth year and drops one
      every hundredth. */
  lemma LeapDayCounts(yoe: int)
    requires 1 <= yoe < 400
    ensures yoe / 4 - (yoe - 1) / 4 == if yoe % 4 == 0 then 1 else 0
    ensures yoe / 100 - (yoe - 1) / 100 == if yoe % 100 == 0 then 1 else 0
  {
  }

  /** Adding a multiple of 4 does not change the remainder by 4. */
  lemma RemainderBy4(k: int, r: int)
    ensures (4 * k + r) % 4 == r % 4
  {
  }

  /** Adding a multiple of 100 does not change the remainder by 100. */
  lemma RemainderBy100(k: int, r: int)
    ensures (100 * k + r) % 100 == r % 100
  {
  }

  /** A year and its year of era have the same remainders by 4, 100 and 400. */
  lemma EraRemainders(y: int, era: int, yoe: int)
    requires y == 400 * era + yoe && 0 <= yoe < 400
    ensures y % 4 == yoe % 4 && y % 100 == yoe % 100 && y % 400 == yoe
  {
    RemainderBy4(100 * era, yoe);
    RemainderBy100(4 * era, yoe);
  }

  /** The March-based year that ends in February of `y` has 366 days exactly
      when `y` is a leap year. */
  lemma ShiftedYearLength(y: int)
    ensures DaysFromCivil(y, 3, 1) - DaysFromCivil(y - 1, 3, 1) == if IsLeapYear(y) then 366 else 365
  {
    var era, era' := y / 400, (y - 1) / 400;
    var yoe, yoe' := y - era * 400, (y - 1) - era' * 400;
    EraRemainders(y, era, yoe);
    if yoe == 0 {
      assert era' == era - 1 && yoe' == 399;
    } else {
      assert era' == era && yoe' == yoe - 1;
      LeapDayCounts(yoe);
    }
  }

  /** Day ordinals count calendar days without gaps: the day after the last day
      of a month, or of December, is one ordinal later. */
  lemma CalendarRollover(y: int, m: int)
    requires 1 <= m <= 12
    ensures m < 12 ==> DaysFromCivil(y, m + 1, 1) == DaysFromCivil(y, m, DaysInMonth(y, m)) + 1
    ensures m == 12 ==> DaysFromCivil(y + 1, 1, 1) == DaysFromCivil(y, 12, 31) + 1
  {
    if m == 2 {
      ShiftedYearLength(y);
    } else if m < 12 {
      MonthRollover(y, m);
    }
  }

  /** Within one March-based year, the first of the next month follows the
      last day of the month. */
  lemma MonthRollover(y: int, m: int)
    requires 1 <= m < 12 && m != 2
    ensures DaysFromCivil(y, m + 1, 1) == DaysFromCivil(y, m, DaysInMonth(y, m)) + 1
  {
    var sm := if m > 2 then m - 3 else m + 9;
    assert (153 * (sm + 1) + 2) / 5 == (153 * sm + 2) / 5 + DaysInMonth(y, m) by {
      if m == 1 {} else if m == 3 {} else if m == 4 {} else if m == 5 {} else if m == 6 {}
      else if m == 7 {} else if m == 8 {} else if m == 9 {} else if m == 10 {} else {}
    }
  }

  /** Day 0 is 1970-01-01. */
  lemma EpochIsDayZero()
    ensures WellFormedDate("1970-01-01") && DayOrdinal("1970-01-01") == 0
  {
    assert YearOf("1970-01-01") == 1970 && MonthOf("1970-01-01") == 1 && DayOf("1970-01-01") == 1;
  }

  function DayOrdinal(s: string): int
    requires WellFormedDate(s)
  {
    DaysFromCivil(YearOf(s), MonthOf(s), DayOf(s))
  }

  /** The instant at which minute `minute` of day `day` begins, in milliseconds. */
  function Moment(day: int, minute: int): int {
    (day * MinutesPerDay + minute) * MillisPerMinute
  }

  /** `new Date(`${date}T${time}`) < new Date()`: the start of the booking lies
      strictly before the current instant. */
  predicate IsPast(day: int, minute: int, now: int) {
    Moment(day, minute) < now
  }

  /** `new Date(`${date}T${time}`)` for the two strings of a form: the instant,
      or `None` for an invalid date (every comparison with which is false). */
  function SelectedMoment(date: string, time: string): Option<int> {
    if WellFormedDate(date) && WellFormedTime(time) then
      Some(Moment(DayOrdinal(date), TimeMinutes(time)))
    else
      None
  }

  /** On one date, the instant of the earlier time comes first, and JavaScript's
      string `<` on the two times says the same. */
  lemma MomentOrderOnOneDay(date: string, t1: string, t2: string)
    requires WellFormedDate(date) && WellFormedTime(t1) && WellFormedTime(t2)
    ensures SelectedMoment(date, t1).Some? && SelectedMoment(date, t2).Some?
    ensures SelectedMoment(date, t1).value < SelectedMoment(date, t2).value <==> LexLess(t1, t2)
  {
    LexLessMatchesMinutes(t1, t2);
  }

  /** Midnight of the next day is one minute after 23:59 of the day before. */
  lemma MidnightFollowsLastMinute(date: string, next: string)
    requires WellFormedDate(date) && WellFormedDate(next)
    requires DayOrdinal(next) == DayOrdinal(date) + 1
    ensures SelectedMoment(next, "00:00").Some? && SelectedMoment(date, "23:59").Some?
    ensures SelectedMoment(next, "00:00").value == SelectedMoment(date, "23:59").value + MillisPerMinute
  {
    assert WellFormedTime("00:00") && TimeMinutes("00:00") == 0;
    assert WellFormedTime("23:59") && TimeMinutes("23:59") == MinutesPerDay - 1;
  }
}
