/** `check_employee_availability`, the first definition in the source file (the
    two bodies after its `return` are unreachable): compare each day window
    with the weekly shift table and add up the overlapping time. */
module Availability {
  import opened Wrappers
  import opened TimeFormat
  import opened Calendar
  import opened TimeWindows

  /** The weekly shift table: keys such as "monday_in" and "monday_out", values
      "%H:%M" strings or `None`. */
  type Shifts = map<string, Option<string>>

  /** An entry of `unavailable_periods`. The text of a `ValueError` is not kept. */
  datatype Period =
    | NoShift(day: string)
    | OutsideWindow(day: string, shiftHours: string, taskHours: string)
    | InvalidTime(day: string)

  /** What one window contributes: an unavailable entry, or overlap minutes. */
  datatype Verdict = Blocked(period: Period) | Open(minutes: int)

  /** The returned dictionary; hours are kept as exact minutes. */
  datatype Report = Report(isAvailable: bool, unavailablePeriods: Option<seq<Period>>, totalAvailableMinutes: int)

  function InKey(day: string): string { day + "_in" }
  function OutKey(day: string): string { day + "_out" }

  /** The nested `parse_time`: "24:00" and "24:48" are read as 23:59. */
  function ShiftClock(s: string): (r: Option<int>)
    ensures s == "24:00" || s == "24:48" ==> r == Some(MinutesPerDay - 1)
    ensures r.Some? ==> 0 <= r.value < MinutesPerDay
  {
    if s == "24:00" || s == "24:48" then Some(MinutesPerDay - 1) else ParseClock(s)
  }

  /** True when the table has both keys for `day` and neither value is `None`. */
  predicate HasShift(shifts: Shifts, day: string)
  {
    InKey(day) in shifts && OutKey(day) in shifts && shifts[InKey(day)].Some? && shifts[OutKey(day)].Some?
  }

  /** True when shift and window times all parse. */
  predicate Readable(shifts: Shifts, w: Window)
    requires HasShift(shifts, w.dayName)
  {
    ShiftClock(shifts[InKey(w.dayName)].value).Some? && ShiftClock(shifts[OutKey(w.dayName)].value).Some?
    && ParseClock(w.startTime).Some? && ParseClock(w.endTime).Some?
  }

  /** One iteration of the loop over windows. */
  function WindowVerdict(shifts: Shifts, w: Window): (r: Verdict)
    // a missing key or a None value: exactly the "No shift scheduled" case
    ensures r == Blocked(NoShift(w.dayName)) <==> !HasShift(shifts, w.dayName)
    // an unreadable time: exactly the invalid-format case
    ensures r == Blocked(InvalidTime(w.dayName)) <==> HasShift(shifts, w.dayName) && !Readable(shifts, w)
    // otherwise unavailable exactly when the shift ends before the window starts
    // or starts after it ends; touching endpoints count as available
    ensures HasShift(shifts, w.dayName) && Readable(shifts, w) ==>
      var ss, se := ShiftClock(shifts[InKey(w.dayName)].value).value, ShiftClock(shifts[OutKey(w.dayName)].value).value;
      var ts, te := ParseClock(w.startTime).value, ParseClock(w.endTime).value;
      && (r.Blocked? <==> se < ts || ss > te)
      && (r.Blocked? ==> r.period == OutsideWindow(w.dayName, shifts[InKey(w.dayName)].value + "-" + shifts[OutKey(w.dayName)].value,
                                                   w.startTime + "-" + w.endTime))
      && (r.Open? ==> r.minutes == Max(0, Min(se, te) - Max(ss, ts)))
    ensures r.Open? ==> r.minutes >= 0
    ensures r.Blocked? ==> r.period.day == w.dayName
  {
    var day := w.dayName;
    if InKey(day) !in shifts || OutKey(day) !in shifts then Blocked(NoShift(day))
    else
      var shiftIn, shiftOut := shifts[InKey(day)], shifts[OutKey(day)];
      if shiftIn.None? || shiftOut.None? then Blocked(NoShift(day))
      else match (ShiftClock(shiftIn.value), ShiftClock(shiftOut.value), ParseClock(w.startTime), ParseClock(w.endTime))
        case (Some(shiftStart), Some(shiftEnd), Some(taskStart), Some(taskEnd)) =>
          if shiftEnd < taskStart || shiftStart > taskEnd then
            Blocked(OutsideWindow(day, shiftIn.value + "-" + shiftOut.value, w.startTime + "-" + w.endTime))
          else
            Open(Max(0, Min(shiftEnd, taskEnd) - Max(shiftStart, taskStart)))
        case _ => Blocked(InvalidTime(day))
  }

  /** The `unavailable_periods` list, in window order. */
  function Periods(shifts: Shifts, ws: seq<Window>): (r: seq<Period>)
    ensures |r| <= |ws|
    ensures r == [] <==> forall i :: 0 <= i < |ws| ==> WindowVerdict(shifts, ws[i]).Open?
    ensures forall j :: 0 <= j < |r| ==> exists i :: 0 <= i < |ws| && WindowVerdict(shifts, ws[i]) == Blocked(r[j])
  {
    if ws == [] then []
    else
      var last := ws[|ws| - 1];
      var init := Periods(shifts, ws[..|ws| - 1]);
      assert forall i :: 0 <= i < |ws| - 1 ==> ws[..|ws| - 1][i] == ws[i];
      match WindowVerdict(shifts, last)
      case Blocked(p) => init + [p]
      case Open(_) => init
  }

  /** The running `total_available_hours`, in minutes. */
  function OpenMinutes(shifts: Shifts, ws: seq<Window>): (r: int)
    ensures r >= 0
  {
    if ws == [] then 0
    else
      var v := WindowVerdict(shifts, ws[|ws| - 1]);
      OpenMinutes(shifts, ws[..|ws| - 1]) + (if v.Open? then v.minutes else 0)
  }

  /** The report for an employee's shift table and a task's windows. */
  function AvailabilityOf(shifts: Shifts, ws: seq<Window>): (r: Report)
    ensures r.isAvailable <==> forall i :: 0 <= i < |ws| ==> WindowVerdict(shifts, ws[i]).Open?
    ensures r.unavailablePeriods.None? <==> r.isAvailable
    ensures r.totalAvailableMinutes >= 0
  {
    var periods := Periods(shifts, ws);
    Report(|periods| == 0, if periods == [] then None else Some(periods), OpenMinutes(shifts, ws))
  }

  lemma WindowStep(shifts: Shifts, ws: seq<Window>, i: int)
    requires 0 <= i < |ws|
    ensures var v := WindowVerdict(shifts, ws[i]);
      && Periods(shifts, ws[..i + 1]) == Periods(shifts, ws[..i]) + (if v.Blocked? then [v.period] else [])
      && OpenMinutes(shifts, ws[..i + 1]) == OpenMinutes(shifts, ws[..i]) + (if v.Open? then v.minutes else 0)
  {
    var p := ws[..i + 1];
    assert p[..|p| - 1] == ws[..i] && p[|p| - 1] == ws[i];
  }

  /** The entries and minutes of two runs of windows, one after the other, are
      those of the first run followed by those of the second: together with
      `SingleWindow` this says that every blocked window contributes exactly
      its own entry, in window order, and every open window its minutes. */
  lemma {:induction false} WindowsConcat(shifts: Shifts, a: seq<Window>, b: seq<Window>)
    ensures Periods(shifts, a + b) == Periods(shifts, a) + Periods(shifts, b)
    ensures OpenMinutes(shifts, a + b) == OpenMinutes(shifts, a) + OpenMinutes(shifts, b)
    decreases |b|
  {
    if b == [] {
      assert a + b == a;
    } else {
      var init, w := b[..|b| - 1], b[|b| - 1];
      assert b == init + [w];
      assert a + b == (a + init) + [w];
      WindowsConcat(shifts, a, init);
      AppendWindow(shifts, a + init, w);
      AppendWindow(shifts, init, w);
    }
  }

  /** A single window contributes its own entry when blocked, and its minutes
      when open. */
  lemma SingleWindow(shifts: Shifts, w: Window)
    ensures var v := WindowVerdict(shifts, w);
      && Periods(shifts, [w]) == (if v.Blocked? then [v.period] else [])
      && OpenMinutes(shifts, [w]) == (if v.Open? then v.minutes else 0)
  {
    var none: seq<Window> := [];
    AppendWindow(shifts, none, w);
    assert none + [w] == [w];
  }

  /** Appending a window appends its entry or adds its minutes, never both. */
  lemma AppendWindow(shifts: Shifts, ws: seq<Window>, w: Window)
    ensures var v := WindowVerdict(shifts, w);
      && Periods(shifts, ws + [w]) == Periods(shifts, ws) + (if v.Blocked? then [v.period] else [])
      && OpenMinutes(shifts, ws + [w]) == OpenMinutes(shifts, ws) + (if v.Open? then v.minutes else 0)
  {
    assert (ws + [w])[..|ws|] == ws;
  }

  method CheckEmployeeAvailability(shifts: Shifts, windows: seq<Window>) returns (r: Report)
    ensures r == AvailabilityOf(shifts, windows)
  {
    var unavailable: seq<Period> := [];
    var total := 0;
    for i := 0 to |windows|
      invariant unavailable == Periods(shifts, windows[..i])
      invariant total == OpenMinutes(shifts, windows[..i])
    {
      WindowStep(shifts, windows, i);
      var v := WindowVerdict(shifts, windows[i]);
      match v
      case Blocked(period) =>
        unavailable := unavailable + [period];
      case Open(minutes) =>
        total := total + minutes;
    }
    assert windows[..|windows|] == windows;
    r := Report(|unavailable| == 0, if unavailable != [] then Some(unavailable) else None, total);
  }

  // ---------------------------------------------------------------------------
  // Consequences

  /** A day without a shift yields one "No shift scheduled" entry and no time. */
  lemma NoShiftDay(shifts: Shifts, w: Window)
    requires !HasShift(shifts, w.dayName)
    ensures AvailabilityOf(shifts, [w]) == Report(false, Some([NoShift(w.dayName)]), 0)
  {
    var none: seq<Window> := [];
    AppendWindow(shifts, none, w);
    assert none + [w] == [w];
    assert WindowVerdict(shifts, w) == Blocked(NoShift(w.dayName));
    assert Periods(shifts, [w]) == [NoShift(w.dayName)];
  }

  /** An overnight shift (start after end) may be available but adds no time. */
  lemma OvernightShiftAddsNothing(shifts: Shifts, w: Window)
    requires HasShift(shifts, w.dayName) && Readable(shifts, w)
    requires ShiftClock(shifts[InKey(w.dayName)].value).value > ShiftClock(shifts[OutKey(w.dayName)].value).value
    ensures WindowVerdict(shifts, w).Blocked? || WindowVerdict(shifts, w) == Open(0)
  {
  }

  /** A shift ending exactly when the window starts is available, with no time. */
  lemma TouchingShiftIsAvailable(shifts: Shifts, w: Window)
    requires HasShift(shifts, w.dayName) && Readable(shifts, w)
    requires ShiftClock(shifts[OutKey(w.dayName)].value).value == ParseClock(w.startTime).value
    requires ShiftClock(shifts[InKey(w.dayName)].value).value <= ParseClock(w.endTime).value
    ensures WindowVerdict(shifts, w) == Open(0)
  {
  }

  /** The windows the allocator builds always re-read cleanly, so an invalid
      format entry can only come from the shift table. */
  lemma {:induction false} TaskTimesReadable(ws: seq<Window>, first: Date, firstSecs: int, e: Stamp, shifts: Shifts)
    requires ValidDate(first) && ValidStamp(e) && DayByDay(ws, first, firstSecs, e)
    ensures forall i :: 0 <= i < |ws| ==> ParseClock(ws[i].startTime).Some? && ParseClock(ws[i].endTime).Some?
    ensures forall i :: 0 <= i < |ws| && WindowVerdict(shifts, ws[i]).Blocked? && WindowVerdict(shifts, ws[i]).period.InvalidTime? ==>
      ShiftClock(shifts[InKey(ws[i].dayName)].value).None? || ShiftClock(shifts[OutKey(ws[i].dayName)].value).None?
  {
    forall i | 0 <= i < |ws|
      ensures ParseClock(ws[i].startTime).Some? && ParseClock(ws[i].endTime).Some?
    {
      assert WindowAt(ws[i], i, |ws|, first, firstSecs, e);
      ClockRoundTrip(StartSeconds(i, firstSecs) / 60);
      ClockRoundTrip(EndSeconds(i, |ws|, e) / 60);
    }
  }
}
