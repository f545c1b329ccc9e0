/** The two `strptime` formats the allocator reads, "%Y:%m:%d:%H:%M" for task
    start and end times and "%H:%M" for shift and window times, and the
    `strftime` forms it writes. A format field accepts what CPython's
    `_strptime` regular expression for it accepts:
      %Y  exactly four digits;
      %m  one or two digits denoting 1..12;
      %d  one or two digits denoting 1..31, or a space followed by one digit 1..9;
      %H  one or two digits denoting 0..23;
      %M  one or two digits denoting 0..59;
    and the whole string must be consumed. A date outside the calendar (year 0,
    30 February) is refused as `datetime` refuses it. */
module TimeFormat {
  import opened Wrappers
  import opened Text
  import opened Calendar

  /** A `datetime` with minute precision, as "%Y:%m:%d:%H:%M" yields. */
  datatype Stamp = Stamp(date: Date, hour: int, minute: int)

  predicate ValidStamp(t: Stamp)
  {
    ValidDate(t.date) && 0 <= t.hour < 24 && 0 <= t.minute < 60
  }

  const SecondsPerDay := 86400
  const MinutesPerDay := 1440

  /** Seconds since 0001-01-01 00:00; `datetime` comparison is comparison of these. */
  function Instant(t: Stamp): int
    requires ValidStamp(t)
  {
    DayOrdinal(t.date) * 86400 + t.hour * 3600 + t.minute * 60
  }

  /** A field of one or two digits whose value lies in lo..hi. */
  predicate NumField(f: string, lo: int, hi: int)
  {
    1 <= |f| <= 2 && AllDigits(f) && lo <= DigitsValue(f) <= hi
  }

  predicate YearField(f: string)
  {
    |f| == 4 && AllDigits(f)
  }

  /** %d also accepts a blank-padded day such as " 7". */
  predicate SpacedDay(f: string)
  {
    |f| == 2 && f[0] == ' ' && '1' <= f[1] <= '9'
  }

  function DayValue(f: string): (v: int)
    requires NumField(f, 1, 31) || SpacedDay(f)
    ensures 1 <= v <= 31
  {
    if SpacedDay(f) then DigitValue(f[1]) else DigitsValue(f)
  }

  /** `datetime.strptime(s, "%Y:%m:%d:%H:%M")`, `None` where it raises `ValueError`. */
  function ParseStamp(s: string): (r: Option<Stamp>)
    ensures r.Some? ==> ValidStamp(r.value)
  {
    var f := Split(s, ':');
    if |f| == 5 && YearField(f[0]) && NumField(f[1], 1, 12) && (NumField(f[2], 1, 31) || SpacedDay(f[2]))
       && NumField(f[3], 0, 23) && NumField(f[4], 0, 59)
    then
      var d := Date(DigitsValue(f[0]), DigitsValue(f[1]), DayValue(f[2]));
      if ValidDate(d) then Some(Stamp(d, DigitsValue(f[3]), DigitsValue(f[4]))) else None
    else None
  }

  /** `datetime.strptime(s, "%H:%M").time()` as minutes after midnight. */
  function ParseClock(s: string): (r: Option<int>)
    ensures r.Some? ==> 0 <= r.value < MinutesPerDay
  {
    var f := Split(s, ':');
    if |f| == 2 && NumField(f[0], 0, 23) && NumField(f[1], 0, 59)
    then Some(DigitsValue(f[0]) * 60 + DigitsValue(f[1]))
    else None
  }

  /** `strftime('%H:%M')` of a time of day given in minutes. */
  function FormatClock(minutes: int): (s: string)
    requires 0 <= minutes < MinutesPerDay
    ensures |s| == 5
  {
    Pad2(minutes / 60) + ":" + Pad2(minutes % 60)
  }

  /** `strftime('%Y:%m:%d:%H:%M')`, the form task times are written in. */
  function FormatStamp(t: Stamp): (s: string)
    requires ValidStamp(t)
    ensures |s| == 16
  {
    PadDigitsValue(t.date.year, 4);
    PadDigits(t.date.year, 4) + ":" + Pad2(t.date.month) + ":" + Pad2(t.date.day)
      + ":" + Pad2(t.hour) + ":" + Pad2(t.minute)
  }

  lemma DigitsHaveNoColon(s: string)
    requires AllDigits(s)
    ensures ':' !in s
  {
  }

  /** Reading back a formatted time of day gives the same minute. */
  lemma {:induction false} ClockRoundTrip(minutes: int)
    requires 0 <= minutes < MinutesPerDay
    ensures ParseClock(FormatClock(minutes)) == Some(minutes)
  {
    var h, m := Pad2(minutes / 60), Pad2(minutes % 60);
    DigitsHaveNoColon(h);
    DigitsHaveNoColon(m);
    SplitCons(h, ':', m);
    SplitNoSep(m, ':');
    assert FormatClock(minutes) == h + [':'] + m;
  }

  /** Five colon-free fields joined by ':' split back into themselves. */
  lemma SplitFive(a: string, b: string, c: string, d: string, e: string)
    requires ':' !in a && ':' !in b && ':' !in c && ':' !in d && ':' !in e
    ensures Split(a + [':'] + (b + [':'] + (c + [':'] + (d + [':'] + e))), ':') == [a, b, c, d, e]
  {
    SplitNoSep(e, ':');
    SplitCons(d, ':', e);
    SplitCons(c, ':', d + [':'] + e);
    SplitCons(b, ':', c + [':'] + (d + [':'] + e));
    SplitCons(a, ':', b + [':'] + (c + [':'] + (d + [':'] + e)));
  }

  /** A formatted task time splits on ':' into its five padded fields. */
  lemma StampFields(t: Stamp)
    requires ValidStamp(t)
    ensures Split(FormatStamp(t), ':') ==
        [PadDigits(t.date.year, 4), Pad2(t.date.month), Pad2(t.date.day), Pad2(t.hour), Pad2(t.minute)]
  {
    PadDigitsValue(t.date.year, 4);
    var y := PadDigits(t.date.year, 4);
    var mo, d, h, mi := Pad2(t.date.month), Pad2(t.date.day), Pad2(t.hour), Pad2(t.minute);
    DigitsHaveNoColon(y);
    DigitsHaveNoColon(mo);
    DigitsHaveNoColon(d);
    DigitsHaveNoColon(h);
    DigitsHaveNoColon(mi);
    assert FormatStamp(t) == y + [':'] + (mo + [':'] + (d + [':'] + (h + [':'] + mi)));
    SplitFive(y, mo, d, h, mi);
  }

  /** Reading back a formatted task time gives the same stamp. */
  lemma StampRoundTrip(t: Stamp)
    requires ValidStamp(t)
    ensures ParseStamp(FormatStamp(t)) == Some(t)
  {
    StampFields(t);
    PadDigitsValue(t.date.year, 4);
    var f := Split(FormatStamp(t), ':');
    assert f[0] == PadDigits(t.date.year, 4) && DigitsValue(f[0]) == t.date.year;
    assert f[2] == Pad2(t.date.day) && !SpacedDay(f[2]);
    assert NumField(f[1], 1, 12) && NumField(f[2], 1, 31) && NumField(f[3], 0, 23) && NumField(f[4], 0, 59);
  }
}
