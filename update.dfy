/** The derived-state cache of the watch face (src/c/update.c): on each
    minute tick it redraws the time, and the date, weekday and week number
    only when the cached day and week markers say they are stale; it also
    keeps the battery level and draws it as a row of dots.

    The host's set-text and draw calls are the `Event`s the operations
    return, in the order the source makes them. The host's queries (the
    current `struct tm`, the 24-hour clock setting, the battery charge) are
    parameters. */
module Update {
  import opened Strftime

  /** Sizes of the static text buffers the conversions write into. */
  const WeekNumberBufferSize := 3
  const TimeBufferSize := 8
  const DateBufferSize := 11
  const WeekTextBufferSize := 5

  /** Horizontal distance between two battery dots. */
  const BatteryIndicatorSpace := 12

  /** One call into the host's drawing surface. */
  datatype Event =
    | SetTime(text: string)      // text of the time layer
    | SetDate(text: string)      // text of the date layer
    | SetWeekDay(wday: int)      // weekday layer set to the name the settings give day `wday`
    | SetWeek(text: string)      // text of the week-number layer
    | Dot(x: int, y: int)        // a filled circle of radius 3 centred at (x, y)

  /** A host rectangle: origin and size. */
  datatype Rect = Rect(x: int, y: int, w: int, h: int)

  /** The cached markers a tick compares against. */
  datatype Markers = Markers(lastWeek: int, lastDay: int, lastHour: int)

  datatype TickResult = TickResult(markers: Markers, events: seq<Event>)

  /** C's `h/2` on `int`, which truncates toward zero. */
  function HalfTowardZero(a: int): (q: int)
    ensures a >= 0 ==> 0 <= a - 2 * q <= 1
    ensures a < 0 ==> -1 <= a - 2 * q <= 0
  {
    if a >= 0 then a / 2 else -((-a) / 2)
  }

  /** The battery level of a charge percentage: `round(charge_percent/20)`.
      `charge_percent` is assumed to be an integer, as the host reports it;
      the quotient of two integers is then already truncated, so `round`
      leaves it unchanged. */
  function BatteryLevel(chargePercent: nat): (level: nat)
    ensures level * 20 <= chargePercent < level * 20 + 20
    ensures chargePercent <= 100 ==> level <= 5
  {
    chargePercent / 20
  }

  /** `get_current_week_number`: %W into a 3-byte buffer, read back with
      `atoi`. */
  function GetCurrentWeekNumber(t: Tm): (w: int)
    requires t.Valid()
    ensures FitsBuffer(WeekNumberText(t), WeekNumberBufferSize)
    ensures w == WeekOfYear(t.yday, t.wday)
    ensures 0 <= w <= 53
  {
    Pad2Width(WeekOfYear(t.yday, t.wday));
    AtoiPad2(WeekOfYear(t.yday, t.wday));
    Atoi(WeekNumberText(t))
  }

  /** `update_time`: the clock text fits its 8-byte buffer. */
  function UpdateTime(t: Tm, is24h: bool): (e: Event)
    requires t.Valid()
    ensures e.SetTime? && FitsBuffer(e.text, TimeBufferSize)
  {
    SetTime(TimeText(t, is24h))
  }

  /** `update_date`: the date text fits its 11-byte buffer. */
  function UpdateDate(t: Tm): (e: Event)
    requires t.Valid()
    ensures e.SetDate? && FitsBuffer(e.text, DateBufferSize)
  {
    SetDate(DateText(t))
  }

  /** `update_week_day`: the weekday layer is looked up by an index that is
      a valid day of the week. */
  function UpdateWeekDay(t: Tm): (e: Event)
    requires t.Valid()
    ensures e.SetWeekDay? && e.wday == t.wday && 0 <= e.wday <= 6
  {
    SetWeekDay(t.wday)
  }

  /** `update_week`: "v.<n>" into a 5-byte buffer, cut to at most 4
      characters. */
  function UpdateWeek(n: int): (e: Event)
    ensures e.SetWeek? && |e.text| < WeekTextBufferSize && e.text <= "v." + IntText(n)
    ensures |"v." + IntText(n)| < WeekTextBufferSize ==> e.text == "v." + IntText(n)
    ensures |"v." + IntText(n)| >= WeekTextBufferSize ==> |e.text| == WeekTextBufferSize - 1
  {
    SetWeek(Snprintf(WeekTextBufferSize, "v." + IntText(n)))
  }

  /** Every week number of at most two digits fits the week buffer
      untruncated and reads back after the "v.". */
  lemma UpdateWeekReadsBack(n: int)
    requires 0 <= n <= 99
    ensures UpdateWeek(n).text == "v." + IntText(n)
    ensures Atoi(UpdateWeek(n).text[2..]) == n
  {
    DecimalLength(n, 2);
    AtoiIntText(n);
    assert ("v." + IntText(n))[2..] == IntText(n);
  }

  /** The dots `update_battery_layer` draws for `level`: dot `i` at
      x = `initialX - 12*i`, on row `y`. */
  function BatteryDots(level: int, initialX: int, y: int): (dots: seq<Event>)
    decreases level
  {
    if level <= 0 then [] else BatteryDots(level - 1, initialX, y) + [Dot(initialX - (level - 1) * BatteryIndicatorSpace, y)]
  }

  /** `on_time_tick` on values: the clock is always redrawn; the date,
      weekday and week only behind the hour gate and a change of day, the
      week only when its number changed too. */
  function Tick(m: Markers, t: Tm, is24h: bool): (r: TickResult)
    requires t.Valid()
    ensures 1 <= |r.events| <= 4 && r.events[0] == UpdateTime(t, is24h)
    ensures r.markers.lastHour == m.lastHour
  {
    var timeEvents := [UpdateTime(t, is24h)];
    if m.lastHour != t.hour && m.lastDay != t.yday then
      var dayEvents := timeEvents + [UpdateDate(t), UpdateWeekDay(t)];
      var week := GetCurrentWeekNumber(t);
      if m.lastWeek != week then
        TickResult(m.(lastDay := t.yday, lastWeek := week), dayEvents + [UpdateWeek(week)])
      else
        TickResult(m.(lastDay := t.yday), dayEvents)
    else
      TickResult(m, timeEvents)
  }

  /** The module-level state of update.c. */
  class WatchFace {
    var batteryIndicatorY: int
    var batteryIndicatorInitialX: int
    var lastWeekNumber: int
    var lastDayNumber: int
    var lastHourNumber: int
    var currentBatteryLevel: int

    /** What every operation keeps: the hour marker is never assigned, so it
        keeps its initial -1; the day and week markers are -1 or a day and a
        week of the year; the battery level is not negative. */
    ghost predicate Valid()
      reads this
    {
      && lastHourNumber == -1
      && -1 <= lastDayNumber <= 365
      && -1 <= lastWeekNumber <= 53
      && 0 <= currentBatteryLevel
    }

    function CachedMarkers(): Markers
      reads this
    {
      Markers(lastWeekNumber, lastDayNumber, lastHourNumber)
    }

    /** The initial values of the statics. */
    constructor ()
      ensures Valid()
      ensures batteryIndicatorY == -1 && batteryIndicatorInitialX == -1
      ensures CachedMarkers() == Markers(-1, -1, -1)
      ensures currentBatteryLevel == 5
    {
      batteryIndicatorY, batteryIndicatorInitialX := -1, -1;
      lastWeekNumber, lastDayNumber, lastHourNumber := -1, -1, -1;
      currentBatteryLevel := 5;
    }

    /** `init_battery_indicator`: the dots sit 2 pixels below the vertical
        middle of the battery layer, the first 10 pixels left of its right
        edge. */
    method InitBatteryIndicator(bounds: Rect)
      requires Valid()
      modifies this`batteryIndicatorY, this`batteryIndicatorInitialX
      ensures Valid()
      ensures batteryIndicatorY == bounds.y + HalfTowardZero(bounds.h) + 2
      ensures batteryIndicatorInitialX == bounds.x + bounds.w - 10
    {
      batteryIndicatorY := bounds.y + HalfTowardZero(bounds.h) + 2;
      batteryIndicatorInitialX := bounds.x + bounds.w - 10;
    }

    /** `on_battery_state_changed`. */
    method OnBatteryStateChanged(chargePercent: nat)
      requires Valid()
      modifies this`currentBatteryLevel
      ensures Valid()
      ensures currentBatteryLevel == BatteryLevel(chargePercent)
    {
      currentBatteryLevel := BatteryLevel(chargePercent);
    }

    /** `set_current_battery_level`, with the charge the host reports when
        asked. */
    method SetCurrentBatteryLevel(peekedPercent: nat)
      requires Valid()
      modifies this`currentBatteryLevel
      ensures Valid()
      ensures currentBatteryLevel == BatteryLevel(peekedPercent)
    {
      OnBatteryStateChanged(peekedPercent);
    }

    /** `update_battery_layer`: one dot per battery level, right to left,
        all on one row. */
    method UpdateBatteryLayer() returns (dots: seq<Event>)
      ensures |dots| == if currentBatteryLevel < 0 then 0 else currentBatteryLevel
      ensures forall i | 0 <= i < |dots| ::
        dots[i] == Dot(batteryIndicatorInitialX - i * BatteryIndicatorSpace, batteryIndicatorY)
      ensures forall i, j | 0 <= i < j < |dots| :: dots[j].x < dots[i].x
      ensures dots == BatteryDots(currentBatteryLevel, batteryIndicatorInitialX, batteryIndicatorY)
    {
      var y := batteryIndicatorY;
      dots := [];
      var i := 0;
      while i < currentBatteryLevel
        invariant 0 <= i && (i <= currentBatteryLevel || i == 0)
        invariant dots == BatteryDots(i, batteryIndicatorInitialX, y)
        invariant |dots| == i
        invariant forall k | 0 <= k < i :: dots[k] == Dot(batteryIndicatorInitialX - k * BatteryIndicatorSpace, y)
      {
        dots := dots + [Dot(batteryIndicatorInitialX - i * BatteryIndicatorSpace, y)];
        i := i + 1;
      }
    }

    /** `on_time_tick`. Its effect is `Tick` on the cached markers. */
    method OnTimeTick(t: Tm, is24h: bool) returns (events: seq<Event>)
      requires Valid() && t.Valid()
      modifies this`lastDayNumber, this`lastWeekNumber
      ensures Valid()
      ensures TickResult(CachedMarkers(), events) == Tick(old(CachedMarkers()), t, is24h)
    {
      events := [UpdateTime(t, is24h)];
      var currentHourNumber := t.hour;
      if lastHourNumber != currentHourNumber {
        var currentDayNumber := t.yday;
        if lastDayNumber != currentDayNumber {
          lastDayNumber := currentDayNumber;
          events := events + [UpdateDate(t), UpdateWeekDay(t)];
          var currentWeekNumber := GetCurrentWeekNumber(t);
          if lastWeekNumber != currentWeekNumber {
            lastWeekNumber := currentWeekNumber;
            events := events + [UpdateWeek(currentWeekNumber)];
          }
        }
      }
    }

    /** `update_all`: reads the battery, then redraws the week number, the
        time, the weekday and the date unconditionally. The cached markers
        are left as they were. */
    method UpdateAll(t: Tm, is24h: bool, peekedPercent: nat) returns (events: seq<Event>)
      requires Valid() && t.Valid()
      modifies this`currentBatteryLevel
      ensures Valid()
      ensures currentBatteryLevel == BatteryLevel(peekedPercent)
      ensures CachedMarkers() == old(CachedMarkers())
      ensures events == [UpdateWeek(GetCurrentWeekNumber(t)), UpdateTime(t, is24h), UpdateWeekDay(t), UpdateDate(t)]
    {
      SetCurrentBatteryLevel(peekedPercent);
      events := [UpdateWeek(GetCurrentWeekNumber(t)), UpdateTime(t, is24h), UpdateWeekDay(t), UpdateDate(t)];
    }
  }
}
