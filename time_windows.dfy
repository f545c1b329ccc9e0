/** `calculate_daily_time_windows`: split a task's start-end span into one
    window per calendar day. */
module TimeWindows {
  import opened Wrappers
  import opened Calendar
  import opened TimeFormat

  /** One day of a task: the weekday name, the date, the "%H:%M" start and
      end on that day, and the exact length in seconds (the source stores it
      as hours rounded to two decimals). */
  datatype Window = Window(dayName: string, dayDate: Date, startTime: string, endTime: string, durationSeconds: int)

  /** The windows, or the `OverflowError` that `date + timedelta(days=1)` raises
      after 9999-12-31; it is not a `ValueError`, so nothing catches it. */
  datatype WindowsOutcome = Windows(windows: seq<Window>) | DateOverflow

  const LastSecond := SecondsPerDay - 1  // 23:59:59

  function Max(a: int, b: int): int { if a >= b then a else b }
  function Min(a: int, b: int): int { if a <= b then a else b }

  /** Seconds after midnight of a stamp. */
  function ClockSeconds(t: Stamp): int
  {
    t.hour * 3600 + t.minute * 60
  }

  /** The window of one iteration of the loop, for the day `cur` whose
      `current_day` value lies `curSecs` seconds after midnight. */
  function DayWindow(cur: Date, curSecs: int, e: Stamp): Window
    requires ValidDate(cur) && ValidStamp(e) && 0 <= curSecs < SecondsPerDay
    requires DayOrdinal(cur) <= DayOrdinal(e.date)
  {
    var base := DayOrdinal(cur) * 86400;
    var dayStart := Max(base + curSecs, base);
    var dayEnd := Min(Instant(e), base + LastSecond);
    Window(DayName(cur), cur, FormatClock((dayStart - base) / 60), FormatClock((dayEnd - base) / 60), dayEnd - dayStart)
  }

  function Prepend(ws: seq<Window>, o: WindowsOutcome): WindowsOutcome
  {
    match o
    case Windows(rest) => Windows(ws + rest)
    case DateOverflow => DateOverflow
  }

  /** The windows the loop still produces from day `cur` on. */
  function WindowsFrom(cur: Date, curSecs: int, e: Stamp): WindowsOutcome
    requires ValidDate(cur) && ValidStamp(e) && 0 <= curSecs < SecondsPerDay
    decreases DayOrdinal(e.date) - DayOrdinal(cur) + 1
  {
    DateOrder(cur, e.date);
    if !DateLessEq(cur, e.date) then Windows([])
    else if cur == MaxDate then DateOverflow
    else
      NextDateStep(cur);
      Prepend([DayWindow(cur, curSecs, e)], WindowsFrom(NextDate(cur), 0, e))
  }

  /** What `calculate_daily_time_windows(start, end)` returns. */
  function DailyWindows(startText: string, endText: string): WindowsOutcome
  {
    match (ParseStamp(startText), ParseStamp(endText))
    case (Some(s), Some(e)) =>
      if Instant(s) >= Instant(e) then Windows([]) else WindowsFrom(s.date, ClockSeconds(s), e)
    case _ => Windows([])
  }

  method CalculateDailyTimeWindows(startText: string, endText: string) returns (r: WindowsOutcome)
    ensures r == DailyWindows(startText, endText)
  {
    var start := ParseStamp(startText);
    var end := ParseStamp(endText);
    if start.None? || end.None? {
      return Windows([]);
    }
    var s, e := start.value, end.value;
    if Instant(s) >= Instant(e) {
      return Windows([]);
    }
    var windows: seq<Window> := [];
    var cur, curSecs := s.date, ClockSeconds(s);
    while DateLessEq(cur, e.date)
      invariant ValidDate(cur) && 0 <= curSecs < SecondsPerDay
      invariant DailyWindows(startText, endText) == Prepend(windows, WindowsFrom(cur, curSecs, e))
      decreases DayOrdinal(e.date) - DayOrdinal(cur)
    {
      DateOrder(cur, e.date);
      var w := DayWindow(cur, curSecs, e);
      if cur == MaxDate {
        OverflowStep(cur, curSecs, e);
        return DateOverflow;
      }
      WindowStep(cur, curSecs, e);
      PrependTwice(windows, [w], WindowsFrom(NextDate(cur), 0, e));
      windows := windows + [w];
      cur, curSecs := NextDate(cur), 0;
    }
    DoneStep(cur, curSecs, e);
    r := Windows(windows);
  }

  lemma PrependTwice(a: seq<Window>, b: seq<Window>, o: WindowsOutcome)
    ensures Prepend(a, Prepend(b, o)) == Prepend(a + b, o)
  {
    if o.Windows? {
      assert a + (b + o.windows) == (a + b) + o.windows;
    }
  }

  lemma WindowStep(cur: Date, curSecs: int, e: Stamp)
    requires ValidDate(cur) && ValidStamp(e) && 0 <= curSecs < SecondsPerDay
    requires DateLessEq(cur, e.date) && cur != MaxDate
    ensures DayOrdinal(cur) <= DayOrdinal(e.date) && ValidDate(NextDate(cur))
    ensures DayOrdinal(NextDate(cur)) == DayOrdinal(cur) + 1
    ensures WindowsFrom(cur, curSecs, e) == Prepend([DayWindow(cur, curSecs, e)], WindowsFrom(NextDate(cur), 0, e))
  {
    DateOrder(cur, e.date);
    NextDateStep(cur);
  }

  lemma OverflowStep(cur: Date, curSecs: int, e: Stamp)
    requires ValidDate(cur) && ValidStamp(e) && 0 <= curSecs < SecondsPerDay
    requires DateLessEq(cur, e.date) && cur == MaxDate
    ensures WindowsFrom(cur, curSecs, e) == DateOverflow
  {
  }

  lemma DoneStep(cur: Date, curSecs: int, e: Stamp)
    requires ValidDate(cur) && ValidStamp(e) && 0 <= curSecs < SecondsPerDay
    requires !DateLessEq(cur, e.date)
    ensures WindowsFrom(cur, curSecs, e) == Windows([])
  {
  }

  // ---------------------------------------------------------------------------
  // What the windows look like

  /** Seconds after midnight at which window `i` starts: the task start on the
      first day, midnight afterwards. */
  function StartSeconds(i: int, firstSecs: int): int
  {
    if i == 0 then firstSecs else 0
  }

  /** Seconds after midnight at which window `i` of `n` ends: the task end on
      the last day, 23:59:59 before it. */
  function EndSeconds(i: int, n: int, e: Stamp): int
  {
    if i == n - 1 then ClockSeconds(e) else LastSecond
  }

  /** Window `i` of `n` has the fields `DayByDay` asks of it. */
  ghost predicate WindowAt(w: Window, i: int, n: int, first: Date, firstSecs: int, e: Stamp)
    requires ValidDate(first) && ValidStamp(e)
  {
    && ValidDate(w.dayDate)
    && DayOrdinal(w.dayDate) == DayOrdinal(first) + i
    && w.dayName == DayName(w.dayDate)
    && 0 <= StartSeconds(i, firstSecs) <= EndSeconds(i, n, e) < SecondsPerDay
    && w.startTime == FormatClock(StartSeconds(i, firstSecs) / 60)
    && w.endTime == FormatClock(EndSeconds(i, n, e) / 60)
    && w.durationSeconds == EndSeconds(i, n, e) - StartSeconds(i, firstSecs)
  }

  /** One window per day from `first` to the end date inclusive, in date order,
      each named by its weekday and bounded as the two functions above say. */
  ghost predicate DayByDay(ws: seq<Window>, first: Date, firstSecs: int, e: Stamp)
    requires ValidDate(first) && ValidStamp(e)
  {
    && |ws| == DayOrdinal(e.date) - DayOrdinal(first) + 1
    && forall i :: 0 <= i < |ws| ==> WindowAt(ws[i], i, |ws|, first, firstSecs, e)
  }

  /** The window built for day `cur` is the first of the windows from `cur`. */
  lemma FirstWindow(cur: Date, curSecs: int, e: Stamp)
    requires ValidDate(cur) && ValidStamp(e) && 0 <= curSecs < SecondsPerDay
    requires DayOrdinal(cur) <= DayOrdinal(e.date)
    requires DayOrdinal(cur) == DayOrdinal(e.date) ==> curSecs <= ClockSeconds(e)
    ensures WindowAt(DayWindow(cur, curSecs, e), 0, DayOrdinal(e.date) - DayOrdinal(cur) + 1, cur, curSecs, e)
  {
    var base := DayOrdinal(cur) * 86400;
    assert DayOrdinal(cur) < DayOrdinal(e.date) ==> base + SecondsPerDay <= DayOrdinal(e.date) * 86400;
  }

  /** Windows from the next day, shifted by one, continue the first window. */
  lemma ConsWindows(w: Window, rest: seq<Window>, cur: Date, curSecs: int, e: Stamp)
    requires ValidDate(cur) && ValidStamp(e) && cur != MaxDate
    requires ValidDate(NextDate(cur)) && DayOrdinal(NextDate(cur)) == DayOrdinal(cur) + 1
    requires DayByDay(rest, NextDate(cur), 0, e)
    requires WindowAt(w, 0, |rest| + 1, cur, curSecs, e)
    ensures DayByDay([w] + rest, cur, curSecs, e)
  {
    forall i | 0 <= i < |rest| + 1
      ensures WindowAt(([w] + rest)[i], i, |rest| + 1, cur, curSecs, e)
    {
      ConsWindowAt(w, rest, i, cur, curSecs, e);
    }
  }

  lemma ConsWindowAt(w: Window, rest: seq<Window>, i: int, cur: Date, curSecs: int, e: Stamp)
    requires ValidDate(cur) && ValidStamp(e) && cur != MaxDate && 0 <= i < |rest| + 1
    requires ValidDate(NextDate(cur)) && DayOrdinal(NextDate(cur)) == DayOrdinal(cur) + 1
    requires i > 0 ==> WindowAt(rest[i - 1], i - 1, |rest|, NextDate(cur), 0, e)
    requires WindowAt(w, 0, |rest| + 1, cur, curSecs, e)
    ensures WindowAt(([w] + rest)[i], i, |rest| + 1, cur, curSecs, e)
  {
    if i == 0 {
      assert ([w] + rest)[0] == w;
    } else {
      assert ([w] + rest)[i] == rest[i - 1];
      ShiftWindow(rest[i - 1], i, |rest| + 1, cur, curSecs, e);
    }
  }

  /** Window `i - 1` counted from the next day is window `i` counted from `cur`. */
  lemma ShiftWindow(w: Window, i: int, n: int, cur: Date, curSecs: int, e: Stamp)
    requires ValidDate(cur) && ValidStamp(e) && cur != MaxDate && i >= 1
    requires ValidDate(NextDate(cur)) && DayOrdinal(NextDate(cur)) == DayOrdinal(cur) + 1
    requires WindowAt(w, i - 1, n - 1, NextDate(cur), 0, e)
    ensures WindowAt(w, i, n, cur, curSecs, e)
  {
    assert StartSeconds(i, curSecs) == StartSeconds(i - 1, 0) == 0;
    assert EndSeconds(i, n, e) == EndSeconds(i - 1, n - 1, e);
  }

  lemma {:induction false} WindowsFromShape(cur: Date, curSecs: int, e: Stamp)
    requires ValidDate(cur) && ValidStamp(e) && 0 <= curSecs < SecondsPerDay
    requires DayOrdinal(cur) <= DayOrdinal(e.date)
    requires DayOrdinal(cur) == DayOrdinal(e.date) ==> curSecs <= ClockSeconds(e)
    ensures WindowsFrom(cur, curSecs, e).DateOverflow? <==> e.date == MaxDate
    ensures WindowsFrom(cur, curSecs, e).Windows? ==> DayByDay(WindowsFrom(cur, curSecs, e).windows, cur, curSecs, e)
    decreases DayOrdinal(e.date) - DayOrdinal(cur)
  {
    DateOrder(cur, e.date);
    MaxDateIsLast(e.date);
    if cur == MaxDate {
      OverflowStep(cur, curSecs, e);
      return;
    }
    WindowStep(cur, curSecs, e);
    FirstWindow(cur, curSecs, e);
    var next := NextDate(cur);
    var w := DayWindow(cur, curSecs, e);
    DateOrder(next, e.date);
    if !DateLessEq(next, e.date) {
      DoneStep(next, 0, e);
      assert DayByDay([w], cur, curSecs, e);
    } else {
      WindowsFromShape(next, 0, e);
      var rest := WindowsFrom(next, 0, e);
      if rest.Windows? {
        ConsWindows(w, rest.windows, cur, curSecs, e);
      }
    }
  }

  /** Start at or after end, or an unreadable time: no windows at all. */
  lemma EmptyWhenNotBefore(startText: string, endText: string)
    ensures DailyWindows(startText, endText) == Windows([]) <==>
      ParseStamp(startText).None? || ParseStamp(endText).None? ||
      Instant(ParseStamp(startText).value) >= Instant(ParseStamp(endText).value)
  {
    var start, end := ParseStamp(startText), ParseStamp(endText);
    if start.Some? && end.Some? && Instant(start.value) < Instant(end.value) {
      var s, e := start.value, end.value;
      OrderedStamps(s, e);
      WindowsFromShape(s.date, ClockSeconds(s), e);
    }
  }

  /** An earlier stamp lies on the same day or an earlier one. */
  lemma OrderedStamps(s: Stamp, e: Stamp)
    requires ValidStamp(s) && ValidStamp(e) && Instant(s) < Instant(e)
    ensures DayOrdinal(s.date) <= DayOrdinal(e.date)
    ensures DayOrdinal(s.date) == DayOrdinal(e.date) ==> ClockSeconds(s) < ClockSeconds(e)
  {
  }

  /** For a readable span with start before end: the loop fails only for an
      end on the last day of the calendar, and otherwise yields one window per
      calendar day from the start date to the end date, in order. */
  lemma DailyWindowsShape(startText: string, endText: string)
    requires ParseStamp(startText).Some? && ParseStamp(endText).Some?
    requires Instant(ParseStamp(startText).value) < Instant(ParseStamp(endText).value)
    ensures var s, e := ParseStamp(startText).value, ParseStamp(endText).value;
      && (DailyWindows(startText, endText).DateOverflow? <==> e.date == MaxDate)
      && (DailyWindows(startText, endText).Windows? ==>
            DayByDay(DailyWindows(startText, endText).windows, s.date, ClockSeconds(s), e))
  {
    var s, e := ParseStamp(startText).value, ParseStamp(endText).value;
    OrderedStamps(s, e);
    WindowsFromShape(s.date, ClockSeconds(s), e);
  }

  /** The intermediate boundaries print as "00:00" and "23:59". */
  lemma BoundaryTexts()
    ensures FormatClock(0 / 60) == "00:00"
    ensures FormatClock(LastSecond / 60) == "23:59"
  {
    assert LastSecond / 60 == 1439;
    assert Pad2(0) == "00";
    assert Pad2(23) == "23";
    assert Pad2(59) == "59";
  }
}
