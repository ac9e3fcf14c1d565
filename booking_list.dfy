/** The time formatting of the booking list: a start time as stored (`HH:MM`,
    or `HH:MM:SS` as the database returns a TIME column) shown on the
    12-hour clock. */
module BookingList {
  import opened Wrappers
  import opened Text
  import opened Clock

  /** `hours % 12 || 12` on what `parseInt` gave: 0, -0 and `NaN` are falsy and
      become 12. A non-negative hour lands in 1..12, on the same 12-hour dial. */
  function DisplayHour(h: Option<int>): (d: int)
    ensures h.None? ==> d == 12
    ensures h.Some? && h.value >= 0 ==> 1 <= d <= 12 && d % 12 == h.value % 12
  {
    match h
    case None => 12
    case Some(v) =>
      var r := JsRem(v, 12);
      if r == 0 then 12 else r
  }

  /** `hours >= 12 ? 'PM' : 'AM'`; `NaN >= 12` is false. */
  function Meridiem(h: Option<int>): (m: string)
    ensures |m| == 2
  {
    if h.Some? && h.value >= 12 then "PM" else "AM"
  }

  /** The template `${hours}:${minutes} ${ampm}`. */
  function Template(hours: string, minutes: string, ampm: string): (r: string)
    ensures |r| == |hours| + |minutes| + |ampm| + 2
    ensures r[..|hours|] == hours && r[|hours|] == ':'
    ensures r[|hours| + 1..|hours| + 1 + |minutes|] == minutes
    ensures r[|hours| + 1 + |minutes|] == ' ' && r[|hours| + 2 + |minutes|..] == ampm
  {
    hours + [':'] + minutes + [' '] + ampm
  }

  /** `split(':')[1]`, which is `undefined` when there is no colon. */
  function MinutesText(s: string): string {
    match SecondField(s)
    case Some(m) => m
    case None => "undefined"
  }

  /** `convert24HourTimeTo12HourFormat`. */
  function To12Hour(s: string): string {
    if Contains(s, "AM") || Contains(s, "PM") then s
    else
      var h := ParseInt(FirstField(s));
      Template(IntString(DisplayHour(h)), MinutesText(s), Meridiem(h))
  }

  /** Text that already carries `AM` or `PM` is passed through unchanged. */
  lemma PassThrough(s: string)
    requires Contains(s, "AM") || Contains(s, "PM")
    ensures To12Hour(s) == s
  {
  }

  /** Text without `AM` or `PM` is filled into the template. */
  lemma Converted(s: string)
    requires !Contains(s, "AM") && !Contains(s, "PM")
    ensures var h := ParseInt(FirstField(s));
      To12Hour(s) == Template(IntString(DisplayHour(h)), MinutesText(s), Meridiem(h))
  {
  }

  /** Otherwise the result ends in " PM" exactly when the hour parsed from the
      first field is at least 12, and in " AM" in every other case (`NaN`
      included). */
  lemma MeridiemSuffix(s: string)
    requires !Contains(s, "AM") && !Contains(s, "PM")
    ensures var r, h := To12Hour(s), ParseInt(FirstField(s));
      && |r| >= 5 && r[|r| - 3] == ' '
      && (r[|r| - 2..] == "PM" <==> h.Some? && h.value >= 12)
      && (r[|r| - 2..] == "AM" <==> !(h.Some? && h.value >= 12))
  {
    Converted(s);
    assert "AM" != "PM" by { assert "AM"[0] != "PM"[0]; }
  }

  /** The second field (`undefined` when there is no colon) is copied
      verbatim, between the colon after the hour and the space before the
      suffix. */
  lemma MinutesCopied(s: string)
    requires !Contains(s, "AM") && !Contains(s, "PM")
    ensures var r, m := To12Hour(s), MinutesText(s);
      && |r| >= |m| + 5
      && r[|r| - 3 - |m|..|r| - 3] == m && r[|r| - 4 - |m|] == ':'
  {
    var h := ParseInt(FirstField(s));
    var hours, m, suffix := IntString(DisplayHour(h)), MinutesText(s), Meridiem(h);
    var r := To12Hour(s);
    assert r == Template(hours, m, suffix);
    TemplateMinutes(r, hours, m, suffix);
  }

  /** In a filled-in template with a two-letter suffix, the minutes sit between
      the colon and the space before the suffix. */
  lemma TemplateMinutes(r: string, hours: string, minutes: string, ampm: string)
    requires |hours| >= 1 && |ampm| == 2 && r == Template(hours, minutes, ampm)
    ensures |r| >= |minutes| + 5
    ensures r[|r| - 3 - |minutes|..|r| - 3] == minutes && r[|r| - 4 - |minutes|] == ':'
  {
    assert |r| - 3 - |minutes| == |hours| + 1;
  }

  /** Reading a 12-hour time `h:MM AM` / `h:MM PM` (hour 1 to 12, with or
      without a leading zero) back into minutes since midnight. */
  function Parse12Hour(t: string): (m: Option<nat>)
    ensures m.Some? ==> m.value < MinutesPerDay
  {
    var n := |t|;
    if n < 7 || t[n - 6] != ':' || t[n - 3] != ' ' then None
    else Read12(t[..n - 6], t[n - 5..n - 3], t[n - 2..])
  }

  /** The value of the three parts of a 12-hour time: the hour, the minutes and
      the suffix. */
  function Read12(hourText: string, minuteText: string, suffix: string): (m: Option<nat>)
    ensures m.Some? ==> m.value < MinutesPerDay
  {
    if !(1 <= |hourText| <= 2 && AllDigits(hourText) && AllDigits(minuteText)) then None
    else if suffix != "AM" && suffix != "PM" then None
    else
      var h12, mm := DecimalValue(hourText), DecimalValue(minuteText);
      if !(1 <= h12 <= 12 && mm < 60) then None
      else Some(MinutesPerHour * (h12 % 12 + (if suffix == "PM" then 12 else 0)) + mm)
  }

  /** `Parse12Hour` finds the parts of a filled-in template where the template put them. */
  lemma ParseTemplate(t: string, hourText: string, minuteText: string, suffix: string)
    requires |hourText| >= 1 && |minuteText| == 2 && |suffix| == 2
    requires t == Template(hourText, minuteText, suffix)
    ensures Parse12Hour(t) == Read12(hourText, minuteText, suffix)
  {
    var n := |t|;
    assert n == |hourText| + 6;
    assert t[..n - 6] == hourText && t[n - 6] == ':';
    assert t[n - 5..n - 3] == minuteText && t[n - 3] == ' ' && t[n - 2..] == suffix;
  }

  /** The parts of a 12-hour time read as the time they denote. */
  lemma ReadParts(hourText: string, minuteText: string, suffix: string)
    requires 1 <= |hourText| <= 2 && AllDigits(hourText) && 1 <= DecimalValue(hourText) <= 12
    requires |minuteText| == 2 && AllDigits(minuteText) && DecimalValue(minuteText) < 60
    requires suffix == "AM" || suffix == "PM"
    ensures Read12(hourText, minuteText, suffix) ==
      Some(MinutesPerHour * (DecimalValue(hourText) % 12 + (if suffix == "PM" then 12 else 0))
        + DecimalValue(minuteText))
  {
  }

  /** The dial hour and the suffix together give back the 24-hour hour. */
  lemma DialAndSuffix(hour: nat)
    requires hour < 24
    ensures 1 <= DisplayHour(Some(hour)) <= 12
    ensures DisplayHour(Some(hour)) % 12 + (if Meridiem(Some(hour)) == "PM" then 12 else 0) == hour
  {
    assert "AM" != "PM" by { assert "AM"[0] != "PM"[0]; }
  }

  /** The two minute digits of a well-formed `HH:MM`. */
  lemma MinuteDigits(s: string)
    requires WellFormedTime(s)
    ensures |s[3..]| == 2 && AllDigits(s[3..]) && DecimalValue(s[3..]) == MinuteOf(s)
  {
    TwoDigitValue(s[3..]);
  }

  /** The template filled in for a well-formed `HH:MM` reads back as its minutes. */
  lemma TemplateReadsBack(s: string, t: string)
    requires WellFormedTime(s)
    requires t == Template(DecimalString(DisplayHour(Some(HourOf(s)))), s[3..], Meridiem(Some(HourOf(s))))
    ensures Parse12Hour(t) == Some(TimeMinutes(s))
  {
    var hour := HourOf(s);
    var d := DisplayHour(Some(hour));
    var hourText, suffix := DecimalString(d), Meridiem(Some(hour));
    MinuteDigits(s);
    DialAndSuffix(hour);
    DecimalRoundTrip(d);
    ParseTemplate(t, hourText, s[3..], suffix);
    ReadParts(hourText, s[3..], suffix);
  }

  /** The 12-hour text of a well-formed `HH:MM` denotes the same time: reading it
      back gives the minutes the 24-hour text stood for. */
  lemma To12HourRoundTrip(s: string)
    requires WellFormedTime(s)
    ensures Parse12Hour(To12Hour(s)) == Some(TimeMinutes(s))
  {
    WellFormedConverted(s);
    TemplateReadsBack(s, To12Hour(s));
  }

  /** What follows a second colon (the seconds of a TIME column) is dropped:
      `HH:MM:SS` shows as `HH:MM` would. */
  lemma DropsSeconds(s: string, seconds: string)
    requires WellFormedTime(s)
    requires !Contains(s + ":" + seconds, "AM") && !Contains(s + ":" + seconds, "PM")
    ensures To12Hour(s + ":" + seconds) == To12Hour(s)
  {
    TimeFields(s);
    var u := s + ":" + seconds;
    assert u[..5] == s;
    IndexOfFirst(u, ':', 2);
    assert u[3..][..2] == s[3..];
    IndexOfFirst(u[3..], ':', 2);
    assert FirstField(u) == FirstField(s);
    assert SecondField(u) == SecondField(s);
  }

  /** A well-formed `HH:MM` shows as its hour on the 12-hour dial, without a
      leading zero, then its minute digits and the suffix. */
  lemma WellFormedConverted(s: string)
    requires WellFormedTime(s)
    ensures var h := Some(HourOf(s));
      To12Hour(s) == Template(DecimalString(DisplayHour(h)), s[3..], Meridiem(h))
  {
    TimeFields(s);
    Converted(s);
  }

  /** One example: `s` shows as the given hour text, its minute digits and the suffix. */
  lemma Example(s: string, hour: nat, hourText: string, minuteText: string, suffix: string, shown: string)
    requires WellFormedTime(s) && HourOf(s) == hour && s[3..] == minuteText
    requires hourText == DecimalString(DisplayHour(Some(hour))) && suffix == Meridiem(Some(hour))
    requires shown == hourText + [':'] + minuteText + [' '] + suffix
    ensures To12Hour(s) == shown
  {
    WellFormedConverted(s);
  }

  /** The leading zero of the hour goes: 09:05 shows as 9:05 AM. */
  lemma LeadingZeroDropped()
    ensures To12Hour("09:05") == "9:05 AM"
  {
    Example("09:05", 9, "9", "05", "AM", "9:05 AM");
  }

  /** The first hour after midnight reads 12 AM. */
  lemma MidnightReadsTwelve()
    ensures To12Hour("00:15") == "12:15 AM"
  {
    Example("00:15", 0, "12", "15", "AM", "12:15 AM");
  }

  /** Noon reads 12 PM. */
  lemma NoonReadsTwelve()
    ensures To12Hour("12:00") == "12:00 PM"
  {
    assert DisplayHour(Some(12)) == 12;
    Example("12:00", 12, "12", "00", "PM", "12:00 PM");
  }

  /** The afternoon counts from 1 again. */
  lemma AfternoonCountsFromOne()
    ensures To12Hour("13:30") == "1:30 PM"
  {
    assert DisplayHour(Some(13)) == 1;
    Example("13:30", 13, "1", "30", "PM", "1:30 PM");
  }
}
