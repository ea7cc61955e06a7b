# mwf watch face: the redraw cache of `update.c`

This project models the derived-state logic of a smartwatch clock face. On
every minute tick the face redraws the time. It redraws the date, the
weekday name and the week number only when cached markers say they are
stale. It also maps the battery charge to a level of 0 to 5 dots and draws
those dots in a row.

The model has three modules:

- `Strftime` (strftime.dfy): the C library conversions the face relies on,
  as integer and string functions. These are `strftime`'s `%W`, `%H`, `%I`,
  `%M`, `%Y`, `%m` and `%d` (section 7.27.3.5 of ISO/IEC 9899:2011),
  `snprintf`'s `"%d"` and its truncation (section 7.21.6.5), and `atoi`
  (section 7.22.1.2). Each is paired with a lemma that reads it back. `%W`
  is also proved equal to an independent definition: the count of Mondays
  from January 1 up to the day.
- `Update` (update.dfy): the module-level statics of `update.c` as the
  class `WatchFace`. Its fields are `lastWeekNumber`, `lastDayNumber`,
  `lastHourNumber`, `currentBatteryLevel` and the battery indicator
  position. The `update_*` emitters are functions that build one `Event`.
  `Tick` is `on_time_tick` on values, and the method `OnTimeTick` is proved
  equal to it.
- `TickProperties` (tick_properties.dfy): what a tick promises, stated about
  `Tick`, one tick at a time and over any sequence of ticks (`Run`).

Host calls become values. A set-text or fill-circle call is an `Event`
returned by the operation, in the order the source makes the calls. The
host's queries are parameters: the current `struct tm`, whether the clock
is in 24-hour style, and the battery percentage.

`lastHourNumber` is declared at src/c/update.c:19 and tested at
src/c/update.c:88, but nothing ever assigns it. The model keeps this
behaviour. `WatchFace.Valid()` holds `lastHourNumber == -1`, and every valid
tick passes the hour gate (`HourGateAlwaysOpen`). So a change of day is
checked on every tick, not once an hour.

Three behaviours of the code are worth stating outright:

- The cached hour is never updated (see above).
- The battery level is `round(charge_percent/20)`. The model assumes that
  `charge_percent` is an integer: its type is declared by the host's SDK,
  not in update.c. Then `charge_percent/20` divides two integers, so the
  quotient is already truncated and `round` leaves it unchanged. A charge
  of 19 % therefore gives 0 dots and 39 % gives 1 (`BatteryLevel`).
- The week number is `strftime`'s `%W`: weeks start on Monday and the days
  before the year's first Monday are in week 0. That is not the ISO 8601
  week, which `%V` would give.

## Model

| member | source | states |
|---|---|---|
| `Strftime.DecimalText` | src/c/update.c:61 | The `"%d"` numeral of a non-negative value is digits only, with no leading zero, and is one character exactly when the value is below 10 |
| `Strftime.IntText` | src/c/update.c:61 | `"%d"` starts with a minus sign exactly when the value is negative, followed by a numeral of digits only with no leading zero (`AtoiIntText` gives its value) |
| `Strftime.DecimalLength` | src/c/update.c:51 | A numeral has at most k digits exactly when the value is below 10^k |
| `Strftime.DigitsValueOfDecimal` | src/c/update.c:61 | The digits of a numeral evaluate back to the value |
| `Strftime.LeadingDigits` | src/c/update.c:40 | `atoi` reads the longest prefix made of digits: a digit prefix followed by a non-digit or by the end |
| `Strftime.Atoi` | src/c/update.c:40 | `atoi` of a text with no digit is 0; `AtoiWithoutMinus` adds that without a minus sign it is never negative, and `AtoiIntText`, `AtoiNegative` and `AtoiPad2` that it inverts the conversions |
| `Strftime.AtoiWithoutMinus` | src/c/update.c:40 | `atoi` of a text without a minus sign is not negative, leading white space included |
| `Strftime.AtoiIntText` | src/c/update.c:61 | `atoi` inverts `"%d"` for every integer, negative ones included |
| `Strftime.AtoiNegative` | src/c/update.c:40 | `atoi` of a minus sign and a numeral is the numeral's value negated |
| `Strftime.AtoiPad2` | src/c/update.c:38-40 | `atoi` of a zero-padded two-digit conversion returns the number, leading '0' included |
| `Strftime.Pad2` | src/c/update.c:38 | The two-digit conversions of `%W`, `%H`, `%I`, `%M`, `%m` and `%d` give at least two digits, with a leading '0' below 10; `Pad2Width` makes it exactly two below 100 and `AtoiPad2` reads it back |
| `Strftime.Pad2Width` | src/c/update.c:38 | A two-digit conversion of a number below 100 is exactly two characters |
| `Strftime.Snprintf` | src/c/update.c:61 | `snprintf` keeps all of the text when it fits the buffer, and otherwise exactly its first size - 1 characters |
| `Strftime.Hour12` | src/c/update.c:45 | `%I` shows an hour from 1 to 12 that agrees with the 24-hour hour modulo 12, so hour 0 reads as 12 |
| `Strftime.WeekOfYear` | src/c/update.c:36-41 | The `%W` week number of any day of the year lies in 0..53 |
| `Strftime.WeekOfYearCountsMondays` | src/c/update.c:36-41 | The `%W` formula equals the number of Mondays from January 1 through the day, so week 1 starts on the first Monday |
| `Strftime.MondaysBounds` | src/c/update.c:36-41 | Seven times the Monday count brackets the day number shifted to the last Monday, which pins down the `%W` quotient |
| `Strftime.TimeText` | src/c/update.c:43-47 | `"%H:%M"` or `"%I:%M"` is five characters: two digits, ':' and two digits, so both fields are zero-padded |
| `Strftime.TimeTextReadsBack` | src/c/update.c:43-47 | The time text shows the hour of the chosen clock (`ClockHour` picks `%H` or `%I` by the 24-hour setting) and the minute: both read back with `atoi` |
| `Strftime.DateText` | src/c/update.c:49-53 | `"%Y-%m-%d"` is ten characters: four digits, '-', two digits, '-' and two digits, so month and day are zero-padded |
| `Strftime.DateTextReadsBack` | src/c/update.c:49-53 | The date text shows the calendar year, the month 1..12 and the day of the month: all read back with `atoi` |
| `Update.HalfTowardZero` | src/c/update.c:32 | C's `h/2` truncates toward zero, for negative heights too |
| `Update.BatteryLevel` | src/c/update.c:80-82 | The level is the number of whole 20 % steps in the charge, so a charge of 0..100 gives a level of 0..5 |
| `Update.GetCurrentWeekNumber` | src/c/update.c:36-41 | The `%W` text (`WeekNumberText`) fits the 3-byte buffer, and `atoi` gives back the `%W` week number, in 0..53 |
| `Update.UpdateTime` | src/c/update.c:43-47 | The time event's text fits the 8-byte buffer, so `strftime` stores it whole; its content is `TimeText` (see `TimeText` and `TimeTextReadsBack`) |
| `Update.UpdateDate` | src/c/update.c:49-53 | The date event's text fits the 11-byte buffer, so `strftime` stores it whole; its content is `DateText` (see `DateText` and `DateTextReadsBack`) |
| `Update.UpdateWeekDay` | src/c/update.c:55-57 | The weekday name is looked up by `tm_wday`, an index in 0..6 |
| `Update.UpdateWeek` | src/c/update.c:59-63 | The week event's text is "v.<n>" when that fits the 5-byte buffer, and otherwise exactly its first 4 characters |
| `Update.UpdateWeekReadsBack` | src/c/update.c:59-63 | Every week number of at most two digits fits the 5-byte buffer untruncated and reads back after "v." |
| `Update.Tick` | src/c/update.c:84-108 | `on_time_tick` on values: the time update comes first, at most four events are emitted, and the hour marker is kept; `TickCounts`, `TickDayRule`, `TickWeekRule` and `TickWeekText` state the rest |
| `Update.WatchFace.constructor` | src/c/update.c:13-21 | Initial statics: indicator position -1, all three markers -1, battery level 5 |
| `Update.WatchFace.InitBatteryIndicator` | src/c/update.c:31-34 | The dots' row is 2 below the layer's vertical middle, and the first dot is 10 left of its right edge |
| `Update.WatchFace.OnBatteryStateChanged` | src/c/update.c:80-82 | The battery level becomes `BatteryLevel` of the charge; nothing else changes |
| `Update.WatchFace.SetCurrentBatteryLevel` | src/c/update.c:76-78 | The battery level becomes that of the charge the host reports |
| `Update.WatchFace.UpdateBatteryLayer` | src/c/update.c:65-74 | Exactly `currentBatteryLevel` dots (none when not positive), dot i at x = initial x - 12*i on the indicator row, x strictly decreasing; the loop's result is `BatteryDots`, the dots as a recursive function of the level |
| `Update.WatchFace.OnTimeTick` | src/c/update.c:84-108 | The events and the new markers are those of `Tick` on the old markers; the class invariant is kept |
| `Update.WatchFace.UpdateAll` | src/c/update.c:110-119 | Sets the battery level, then emits week, time, weekday and date unconditionally; the three markers are unchanged |
| `TickProperties.TickCounts` | src/c/update.c:84-108 | One tick emits one time event; one date and one weekday event when past the hour gate on a new day; one week event when the week also changed; no dots |
| `TickProperties.TickAlwaysEmitsTime` | src/c/update.c:84-85 | Whatever the markers, a tick first emits the time update, exactly once, and keeps the hour marker |
| `TickProperties.HourGateAlwaysOpen` | src/c/update.c:87-88 | While the hour marker holds its initial -1, every valid tick passes the hour gate and leaves the marker at -1 |
| `TickProperties.TickDayRule` | src/c/update.c:90-95 | A tick emits a date and a weekday update exactly when `tm_yday` differs from the cached day; afterwards the cached day is `tm_yday` |
| `TickProperties.TickWeekRule` | src/c/update.c:97-102 | A week update is emitted only on a new day whose week differs from the cached one; the cached week becomes the tick's week on a new day and is unchanged otherwise |
| `TickProperties.TickWeekText` | src/c/update.c:97-101 | A week update shows "v." and then the `%d` numeral of the tick's `%W` week number (no leading zero), untruncated, and it reads back with `atoi` |
| `TickProperties.TickSameDay` | src/c/update.c:90-91 | A tick on the cached day emits only the time update and changes no marker |
| `TickProperties.TickIdempotent` | src/c/update.c:90-104 | After a tick, a second tick with the same `tm_yday` emits only the time update and leaves the day and week markers unchanged |
| `TickProperties.FirstTickDrawsAll` | src/c/update.c:84-104 | From the initial markers the first tick emits time, date, weekday and week, and caches the day and the week |
| `TickProperties.RunMarkers` | src/c/update.c:84-108 | Over any sequence of ticks the hour marker stays -1 and the cached day ends as that of the last tick |
| `TickProperties.RunCounts` | src/c/update.c:84-108 | Over any sequence of ticks: one time update per tick, and one date and one weekday update per change of day |

## Left out

- `init_update_layers` (src/c/update.c:23-29) only stores the host's layer handles. In the model each event's constructor names its layer.
- The static text buffers are kept by the host layers by pointer, so a later write shows through. The model passes each text by value.
- `graphics_context_set_fill_color` and the dot radius 3 are constants of the drawing call and are not recorded in `Dot`.
- `get_day_name` (src/c/settings.h:9) has no body in the repository. `SetWeekDay` carries the weekday index, not the name.
- The `units_changed` argument of `on_time_tick` is ignored by the code and is not a parameter.
- `Update.BatteryLevel`: `charge_percent` is taken to be an integer percentage, as the host reports it. The float `round` is not modelled.
- `Strftime.Tm`: `Valid()` limits the calendar year to four digits. For longer years `%Y-%m-%d` would not fit the 11-byte buffer and `strftime` leaves it indeterminate; a 32-bit `time_t` never produces such years.
- `Strftime.Atoi`: the overflow of a C `int` is not modelled. Every text read back here has at most four digits.
- `clock_is_24h_style`, `battery_state_service_peek`, `time` and `localtime` are host queries. They become the parameters `is24h`, `peekedPercent` and `t`.
- src/c/setup.c (layer creation, fonts, colours, subscriptions, teardown) and src/c/main.c (the event loop) are host glue and are not part of this model.
- `Dot` and `Rect` use unbounded integers. The host's points and rectangles have 16-bit coordinates, so `batteryIndicatorInitialX - i*12` (src/c/update.c:70) would be narrowed to 16 bits. That never happens for real layer sizes, and the narrowing is not modelled.
- Settings messages and `handle_settings_changed` are not part of this model.
