/** What `on_time_tick` (src/c/update.c) promises, stated about `Tick`, one
    tick at a time and over a sequence of ticks. */
module TickProperties {
  import opened Strftime
  import opened Update

  /** Which host call an event is. */
  datatype Kind = TimeKind | DateKind | WeekDayKind | WeekKind | DotKind

  function KindOf(e: Event): Kind
  {
    match e
    case SetTime(_) => TimeKind
    case SetDate(_) => DateKind
    case SetWeekDay(_) => WeekDayKind
    case SetWeek(_) => WeekKind
    case Dot(_, _) => DotKind
  }

  /** How many events of kind `k` a log holds. */
  function Count(events: seq<Event>, k: Kind): nat
  {
    if events == [] then 0 else (if KindOf(events[0]) == k then 1 else 0) + Count(events[1..], k)
  }

  lemma {:induction false} CountConcat(a: seq<Event>, b: seq<Event>, k: Kind)
    ensures Count(a + b, k) == Count(a, k) + Count(b, k)
    decreases |a|
  {
    if a == [] {
      assert a + b == b;
    } else {
      assert (a + b)[0] == a[0];
      assert (a + b)[1..] == a[1..] + b;
      CountConcat(a[1..], b, k);
    }
  }

  /** Does a tick take the day branch of `on_time_tick`: it passes the hour
      gate (the hour differs from the cached hour) and also finds a day
      other than the cached one? */
  predicate TakesDayBranch(m: Markers, t: Tm)
  {
    m.lastHour != t.hour && m.lastDay != t.yday
  }

  lemma CountCons(e: Event, rest: seq<Event>, k: Kind)
    ensures Count([e] + rest, k) == (if KindOf(e) == k then 1 else 0) + Count(rest, k)
  {
    assert ([e] + rest)[0] == e;
    assert ([e] + rest)[1..] == rest;
  }

  function Is(e: Event, k: Kind): nat
  {
    if KindOf(e) == k then 1 else 0
  }

  /** The log of one tick: the time, then on a new day the date and the
      weekday, then on a new week the week. */
  function TickLog(time: Event, date: Event, weekDay: Event, week: Event, newDay: bool, newWeek: bool): seq<Event>
  {
    [time] + (if newDay then [date, weekDay] + (if newWeek then [week] else []) else [])
  }

  lemma TickShape(m: Markers, t: Tm, is24h: bool)
    requires t.Valid()
    ensures var week := WeekOfYear(t.yday, t.wday);
      Tick(m, t, is24h).events ==
        TickLog(UpdateTime(t, is24h), UpdateDate(t), UpdateWeekDay(t), UpdateWeek(week), TakesDayBranch(m, t), week != m.lastWeek)
  {
  }

  lemma CountTickLog(time: Event, date: Event, weekDay: Event, week: Event, newDay: bool, newWeek: bool, k: Kind)
    ensures Count(TickLog(time, date, weekDay, week, newDay, newWeek), k) ==
      Is(time, k)
      + (if newDay then Is(date, k) + Is(weekDay, k) else 0)
      + (if newDay && newWeek then Is(week, k) else 0)
  {
    var tail: seq<Event> := if newWeek then [week] else [];
    CountCons(time, [], k);
    if newDay {
      assert TickLog(time, date, weekDay, week, newDay, newWeek) == [time] + ([date] + ([weekDay] + tail));
      CountCons(time, [date] + ([weekDay] + tail), k);
      CountCons(date, [weekDay] + tail, k);
      CountCons(weekDay, tail, k);
      if newWeek {
        assert tail == [week] + [];
        CountCons(week, [], k);
      }
    } else {
      assert TickLog(time, date, weekDay, week, newDay, newWeek) == [time] + [];
    }
  }

  /** How many events of kind `k` one tick emits. */
  lemma TickCountsOfKind(m: Markers, t: Tm, is24h: bool, k: Kind)
    requires t.Valid()
    ensures var r := Tick(m, t, is24h); var week := WeekOfYear(t.yday, t.wday);
      Count(r.events, k) ==
        Is(UpdateTime(t, is24h), k)
        + (if TakesDayBranch(m, t) then Is(UpdateDate(t), k) + Is(UpdateWeekDay(t), k) else 0)
        + (if TakesDayBranch(m, t) && week != m.lastWeek then Is(UpdateWeek(week), k) else 0)
  {
    var week := WeekOfYear(t.yday, t.wday);
    TickShape(m, t, is24h);
    CountTickLog(UpdateTime(t, is24h), UpdateDate(t), UpdateWeekDay(t), UpdateWeek(week), TakesDayBranch(m, t), week != m.lastWeek, k);
  }

  /** How many events of each kind one tick emits. */
  lemma TickCounts(m: Markers, t: Tm, is24h: bool)
    requires t.Valid()
    ensures var r := Tick(m, t, is24h); var week := WeekOfYear(t.yday, t.wday);
      && Count(r.events, TimeKind) == 1
      && Count(r.events, DateKind) == (if TakesDayBranch(m, t) then 1 else 0)
      && Count(r.events, WeekDayKind) == (if TakesDayBranch(m, t) then 1 else 0)
      && Count(r.events, WeekKind) == (if TakesDayBranch(m, t) && week != m.lastWeek then 1 else 0)
      && Count(r.events, DotKind) == 0
  {
    TickCountsOfKind(m, t, is24h, TimeKind);
    TickCountsOfKind(m, t, is24h, DateKind);
    TickCountsOfKind(m, t, is24h, WeekDayKind);
    TickCountsOfKind(m, t, is24h, WeekKind);
    TickCountsOfKind(m, t, is24h, DotKind);
  }

  /** Every tick redraws the clock first and exactly once, whatever the
      cached markers are; it never touches the hour marker. */
  lemma TickAlwaysEmitsTime(m: Markers, t: Tm, is24h: bool)
    requires t.Valid()
    ensures var r := Tick(m, t, is24h);
      && r.events != [] && r.events[0] == UpdateTime(t, is24h)
      && Count(r.events, TimeKind) == 1
      && r.markers.lastHour == m.lastHour
  {
    TickCounts(m, t, is24h);
  }

  /** The hour marker is never assigned, so while it holds its initial -1
      every valid tick passes the hour gate. */
  lemma HourGateAlwaysOpen(m: Markers, t: Tm, is24h: bool)
    requires m.lastHour == -1 && t.Valid()
    ensures m.lastHour != t.hour
    ensures Tick(m, t, is24h).markers.lastHour == -1
  {
  }

  /** A tick redraws the date and the weekday, once each, exactly when the
      day of the year differs from the cached one; afterwards the cached day
      is the tick's. */
  lemma TickDayRule(m: Markers, t: Tm, is24h: bool)
    requires m.lastHour == -1 && t.Valid()
    ensures var r := Tick(m, t, is24h);
      && Count(r.events, DateKind) == (if t.yday != m.lastDay then 1 else 0)
      && Count(r.events, WeekDayKind) == (if t.yday != m.lastDay then 1 else 0)
      && r.markers.lastDay == t.yday
  {
    TickCounts(m, t, is24h);
  }

  /** A tick redraws the week number only when the day changed and the %W
      week differs from the cached one. The cached week follows the tick's
      week on a new day and stays put otherwise. */
  lemma TickWeekRule(m: Markers, t: Tm, is24h: bool)
    requires t.Valid()
    ensures var r := Tick(m, t, is24h); var week := WeekOfYear(t.yday, t.wday);
      && Count(r.events, WeekKind) == (if TakesDayBranch(m, t) && week != m.lastWeek then 1 else 0)
      && r.markers.lastWeek == (if TakesDayBranch(m, t) then week else m.lastWeek)
  {
    TickCounts(m, t, is24h);
  }

  /** A week update shows the tick's %W week, untruncated, after "v.". */
  lemma TickWeekText(m: Markers, t: Tm, is24h: bool)
    requires t.Valid()
    ensures var week := WeekOfYear(t.yday, t.wday);
      forall e | e in Tick(m, t, is24h).events && e.SetWeek? :: e.text == "v." + IntText(week) && Atoi(e.text[2..]) == week
  {
    var week := WeekOfYear(t.yday, t.wday);
    TickShape(m, t, is24h);
    UpdateWeekReadsBack(week);
    forall e | e in Tick(m, t, is24h).events && e.SetWeek?
      ensures e == UpdateWeek(week)
    {
      assert e in TickLog(UpdateTime(t, is24h), UpdateDate(t), UpdateWeekDay(t), UpdateWeek(week), TakesDayBranch(m, t), week != m.lastWeek);
    }
  }

  /** A tick on the day already cached redraws only the clock and changes no
      marker. */
  lemma TickSameDay(m: Markers, t: Tm, is24h: bool)
    requires t.Valid() && t.yday == m.lastDay
    ensures Tick(m, t, is24h) == TickResult(m, [UpdateTime(t, is24h)])
  {
  }

  /** Idempotence: after a tick, a second tick on the same day of the year
      (any minute, either clock style) redraws only the clock and keeps the
      day and week markers. */
  lemma TickIdempotent(m: Markers, t: Tm, is24h: bool, t2: Tm, is24h2: bool)
    requires m.lastHour == -1 && t.Valid() && t2.Valid() && t2.yday == t.yday
    ensures var m1 := Tick(m, t, is24h).markers;
      Tick(m1, t2, is24h2) == TickResult(m1, [UpdateTime(t2, is24h2)])
  {
    TickDayRule(m, t, is24h);
    TickSameDay(Tick(m, t, is24h).markers, t2, is24h2);
  }

  /** From the initial markers, the first tick redraws everything: the
      clock, the date, the weekday and the week number. */
  lemma FirstTickDrawsAll(t: Tm, is24h: bool)
    requires t.Valid()
    ensures Tick(Markers(-1, -1, -1), t, is24h) ==
      TickResult(Markers(GetCurrentWeekNumber(t), t.yday, -1),
                 [UpdateTime(t, is24h), UpdateDate(t), UpdateWeekDay(t), UpdateWeek(GetCurrentWeekNumber(t))])
  {
  }

  /** One minute tick as the host delivers it: the time and the clock
      style in force. */
  datatype TickInput = TickInput(t: Tm, is24h: bool)

  predicate AllValid(ticks: seq<TickInput>)
  {
    forall i | 0 <= i < |ticks| :: ticks[i].t.Valid()
  }

  /** A sequence of ticks from markers `m`: the final markers and every
      event in order. */
  function Run(m: Markers, ticks: seq<TickInput>): TickResult
    requires AllValid(ticks)
    decreases |ticks|
  {
    if ticks == [] then TickResult(m, [])
    else
      var r := Tick(m, ticks[0].t, ticks[0].is24h);
      var rest := Run(r.markers, ticks[1..]);
      TickResult(rest.markers, r.events + rest.events)
  }

  /** How many ticks fall on a day other than the one before them, starting
      from cached day `lastDay`. */
  function DayChanges(lastDay: int, ticks: seq<TickInput>): nat
    decreases |ticks|
  {
    if ticks == [] then 0
    else (if ticks[0].t.yday != lastDay then 1 else 0) + DayChanges(ticks[0].t.yday, ticks[1..])
  }

  lemma AllValidTail(ticks: seq<TickInput>)
    requires ticks != [] && AllValid(ticks)
    ensures AllValid(ticks[1..])
  {
    forall i | 0 <= i < |ticks[1..]| ensures ticks[1..][i].t.Valid() {
      assert ticks[1..][i] == ticks[i + 1];
    }
  }

  /** One step of `Run`: the first tick, then the rest from its markers. */
  lemma RunStep(m: Markers, ticks: seq<TickInput>)
    requires ticks != [] && AllValid(ticks)
    ensures AllValid(ticks[1..])
    ensures var first := Tick(m, ticks[0].t, ticks[0].is24h);
      && Run(m, ticks).markers == Run(first.markers, ticks[1..]).markers
      && Run(m, ticks).events == first.events + Run(first.markers, ticks[1..]).events
  {
    AllValidTail(ticks);
  }

  /** Over any sequence of ticks the hour marker stays -1 and the cached
      day ends as that of the last tick. */
  lemma {:induction false} RunMarkers(m: Markers, ticks: seq<TickInput>)
    requires m.lastHour == -1 && AllValid(ticks)
    ensures Run(m, ticks).markers.lastHour == -1
    ensures ticks != [] ==> Run(m, ticks).markers.lastDay == ticks[|ticks| - 1].t.yday
    decreases |ticks|
  {
    if ticks != [] {
      var t, is24h := ticks[0].t, ticks[0].is24h;
      var next := Tick(m, t, is24h).markers;
      RunStep(m, ticks);
      HourGateAlwaysOpen(m, t, is24h);
      TickDayRule(m, t, is24h);
      assert next.lastHour == -1 && next.lastDay == t.yday;
      RunMarkers(next, ticks[1..]);
      if |ticks| == 1 {
        assert ticks[1..] == [];
      } else {
        assert ticks[1..][|ticks[1..]| - 1] == ticks[|ticks| - 1];
      }
    }
  }

  /** Over any sequence of ticks: one clock redraw per tick, and one date
      and one weekday redraw per change of day. */
  lemma {:induction false} RunCounts(m: Markers, ticks: seq<TickInput>)
    requires m.lastHour == -1 && AllValid(ticks)
    ensures var r := Run(m, ticks);
      && Count(r.events, TimeKind) == |ticks|
      && Count(r.events, DateKind) == DayChanges(m.lastDay, ticks)
      && Count(r.events, WeekDayKind) == DayChanges(m.lastDay, ticks)
    decreases |ticks|
  {
    if ticks != [] {
      var t, is24h := ticks[0].t, ticks[0].is24h;
      var first := Tick(m, t, is24h);
      RunStep(m, ticks);
      TickAlwaysEmitsTime(m, t, is24h);
      TickDayRule(m, t, is24h);
      RunCounts(first.markers, ticks[1..]);
      var rest := Run(first.markers, ticks[1..]);
      CountConcat(first.events, rest.events, TimeKind);
      CountConcat(first.events, rest.events, DateKind);
      CountConcat(first.events, rest.events, WeekDayKind);
    }
  }
}
