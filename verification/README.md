# Swelter sensor pipeline — a Dafny model

Swelter is a desktop temperature monitor. A background task enumerates the
hardware-monitor chips once a second, reads every temperature input and sends
the resulting snapshot (a list of monitors, each with the sensors that could be
read) over a channel to the user interface. There each sensor becomes one
numbered row `[index, name, temperature]`, emitted as a `sensors-updated`
signal to the main window, whose handler writes the name and the temperature
into row `index` of a grid. A chart area keeps two properties, `tick` and
`temperature`, which `update_temperature` advances; nothing in the modelled
code calls it yet.

This project models that logic and proves what it promises:

- `hwmons.dfy` (module `Hwmons`): the `Sensor` and `Monitor` records,
  `get_monitors` as a method with nested loops proved against a specification
  function, the partial-failure policy (a failed read drops that one sensor, a
  failed enumeration drops the whole cycle), and the poll loop: one cycle, and
  the loop run over a finite sequence of ticks, with the channel's sending end
  as a class.
- `rows.dfy` (module `Rows`): `emit_sensors`, the flattening of a snapshot into
  rows numbered 1 .. total across monitors, as a method with nested loops.
- `window.dfy` (module `Window`): the signal handler as a method on a `Grid`
  class (the label text at each (column, row) and the order labels were
  attached), its specification `Upsert`, and the end-to-end property that
  emitting a snapshot and handling every row shows sensor k in row k.
- `area.dfy` (module `Area`): the chart area's property store as a class.
- `decimal.dfy` (module `Decimal`): decimal text of integers as Rust's
  `to_string` writes it and `str::parse::<i32>` reads it; the row index crosses
  from `emit_sensors` to the handler as such text, and the two are proved
  inverse.
- `wrappers.dfy` (module `Wrappers`): `Option` and `Result`.

The sensor library is replaced by its output, taken as input data: an
`Enumeration` is either a `ParsingError` or the chips in enumeration order,
each chip a name and its temperature inputs, each input a name and the
`Result` of reading it. Temperatures are `real` and are never computed on;
the text of a temperature is a function parameter `format`. Whether the
application has an active window is a boolean parameter. The modelled Rust
panics are error results: the failed `expect` on a send, `unwrap` of the
parsed row index, an index out of bounds in the handler's values,
`unimplemented!` and a wrong-typed value in the property store, and the i32
overflow of `tick`. The model shows that each of these happens before any
state is changed.

The code drops a sensor only when its read returns an error; it never checks
that the temperature is finite. A failed send panics the polling task
(`expect`); the model ends the loop with `SendFailed`.

## Model

| member | source | states |
|---|---|---|
| `Hwmons.GetMonitors` | src/sensors/hwmons.rs:23-48 | An enumeration error is returned unchanged with no partial snapshot; otherwise exactly one monitor per chip, in order, with the chip's name and exactly the sensors whose read succeeded |
| `Hwmons.ReadSensors` | src/sensors/hwmons.rs:35-42 | A monitor never has more sensors than its chip has temperature inputs |
| `Hwmons.SensorCount` | src/sensors/hwmons.rs:35-42 | N inputs of which K fail to read give exactly N - K sensors |
| `Hwmons.SurvivorsCharacterise` | src/sensors/hwmons.rs:35-41 | The k-th sensor is the k-th successfully read input, with its name and value; successful inputs keep their relative order; every successful input appears |
| `Hwmons.SensorPresentIff` | src/sensors/hwmons.rs:36-41 | A sensor is in the monitor if and only if some input with that name read that value |
| `Hwmons.MonitorsFollowChips` | src/sensors/hwmons.rs:28-44 | One monitor per chip, in enumeration order, carrying the chip's name and the sensors read from that chip |
| `Hwmons.AllFailedGivesEmpty` | src/sensors/hwmons.rs:29-44 | A chip whose reads all fail, or that has no temperature inputs, still gives a monitor, with no sensors |
| `Hwmons.NoChipsGivesEmptySnapshot` | src/sensors/hwmons.rs:26-47 | Zero chips enumerated is a successful empty snapshot, not an error |
| `Hwmons.CoretempScenario` | src/sensors/hwmons.rs:28-47 | A chip "coretemp" with inputs Core 0 = 45.0, Core 1 failing and Core 2 = 52.5 gives the monitor with Core 0 and Core 2 only |
| `Hwmons.Sender.Send` | src/sensors/hwmons.rs:56 | Sending appends the snapshot to what the receiver gets if the receiver is alive, and otherwise fails and delivers nothing |
| `Hwmons.Sender.DropReceiver` | src/main.rs:43-47 | The receiver going away (its callback returning `Continue(false)` once the application is gone) leaves the channel closed and keeps what was already delivered |
| `Hwmons.PollCycle` | src/sensors/hwmons.rs:54-59 | On success the cycle sends exactly that snapshot and continues, or ends with `SendFailed` if the receiver is gone; on an enumeration error nothing is sent and the loop continues |
| `Hwmons.Poll` | src/sensors/hwmons.rs:53-62 | Over a run of ticks in which the receiver goes away before a given cycle (or never), the receiver gets every snapshot produced before the drop, in cycle order (FIFO); after the drop the loop stops with `SendFailed` exactly at the first successful enumeration, and runs out of ticks if there is none |
| `Hwmons.ProducedFollowsCycles` | src/sensors/hwmons.rs:53-62 | The snapshots of two consecutive runs of cycles are those of the first run followed by those of the second |
| `Rows.EmitSensors` | src/main.rs:62-86 | No active window emits nothing; otherwise one row per sensor over all monitors, the k-th row being `[k, name, temperature text]` of the k-th sensor in monitor-then-sensor order |
| `Rows.RowValues` | src/main.rs:72-80 | A row has exactly three values: the index text, which parses back to the index while it fits in an i32, the sensor's name and its temperature text |
| `Rows.RowCount` | src/main.rs:66-83 | The number of rows equals the total number of sensors over all monitors |
| `Rows.AllSensorsAppend` | src/main.rs:66-71 | Rows follow monitor order: the rows of a concatenation of monitor lists are the rows of the first followed by those of the second |
| `Rows.EmptyMonitorEmitsNothing` | src/main.rs:67-69 | A monitor with no sensors emits no row and does not advance the index |
| `Rows.RowOfSensor` | src/main.rs:64-74 | Sensor j of monitor i is numbered one more than the count of sensors before it: indices run on across monitor boundaries |
| `Rows.RowIndicesDistinct` | src/main.rs:64-78 | Two different rows never carry the same index text |
| `Decimal.DecimalString` | src/main.rs:78 | The index text is a non-empty run of decimal digits with no leading zero |
| `Decimal.ParseI32` | src/window.rs:65 | Parsing the empty string fails; a successful parse of plain digits gives the number they denote |
| `Decimal.ParseDecimalRoundTrip` | src/window.rs:65 | Every index the producer writes (up to i32::MAX) is parsed back by the handler to the same number |
| `Decimal.DecimalOfDigitsValue` | src/window.rs:65 | Conversely, a canonical numeral is the text of the number it denotes |
| `Decimal.DecimalStringInjective` | src/main.rs:78 | Different indices have different texts |
| `Window.Upsert` | src/window.rs:62-99 | The handler panics (index out of bounds, or a first value that is not an i32) exactly when there are fewer than three values or the first does not parse; otherwise cell (1, index) holds the name, cell (2, index) the temperature followed by "°C", both exist afterwards, and every other cell is unchanged |
| `Window.UpsertIdempotent` | src/window.rs:69-98 | Handling the same values twice leaves the grid as handling them once |
| `Window.Grid.ChildAt` | src/window.rs:69 | A label is found at a position exactly when one was attached there |
| `Window.Grid.SetText` | src/window.rs:70-71 | Overwrites the text of the existing label and attaches nothing |
| `Window.Grid.Attach` | src/window.rs:79-85 | Adds a new label with the text at a free position |
| `Window.Grid.Put` | src/window.rs:69-86 | An existing label is overwritten in place, a missing one is created; either way the position holds the text and no position ever holds two labels |
| `Window.Grid.OnSensorsUpdated` | src/window.rs:62-99 | The handler's effect is `Upsert` on the grid; a panic leaves the grid as it was; new labels are attached only for cells (1, index) and (2, index) that did not exist, in that order |
| `Window.DisplayAfterEmit` | src/window.rs:62-99 | After the rows of the first n sensors are handled, row k shows sensor k's name and temperature text for each k in 1 .. n, and every other cell, including rows of an earlier larger snapshot, keeps its old text |
| `Window.SnapshotDisplayed` | src/main.rs:62-86 | Emitting a snapshot and handling every emitted row leaves row k showing the k-th sensor of the snapshot, for k from 1 to the total sensor count |
| `Area.ChartArea.constructor` | src/area.rs:13-17 | A new chart area has tick 0 and temperature 0 |
| `Area.ChartArea.GetProperty` | src/area.rs:91-97 | Reading "tick" or "temperature" returns that field; any other name panics |
| `Area.ChartArea.SetProperty` | src/area.rs:77-89 | Setting "tick" replaces only tick and setting "temperature" only temperature, after which reading the property returns the value just set; a value of the wrong type or any other name panics and changes nothing |
| `Area.ChartArea.UpdateTemperature` | src/area.rs:119-127 | Raises tick by exactly 1 and makes the stored temperature the argument; on tick = i32::MAX the increment overflows and panics before anything is written |

## Left out

- The toolkit: widget subclassing, templates, signal registration, label
  styling, `queue_draw`, and the application's actions, accelerators, window
  presentation and about dialog (src/application.rs). The grid is abstracted
  to the text of each label and the order labels were attached.
- `main()`: translations, resource loading, creating the channel and the
  runtime, and the receiver's weak reference to the application.
- The sensor library (`parse_hwmons`, `temps`, `read_input`,
  `as_degrees_celsius`): replaced by the `Enumeration` input.
- The timer, the unbounded loop and cross-thread delivery in `poll`: the loop
  is modelled over a finite sequence of ticks given as input, and the channel
  as a sequence of delivered snapshots.
- Drawing the chart (float arithmetic and cairo calls), and the text of a
  floating-point temperature: temperatures are `real` and their text is the
  parameter `format`; no finiteness or f32/f64 rounding is modelled.
- Logging with `println!`.
- Rows.EmitSensors: the row counter is an unbounded integer; the source's i32
  counter would overflow only after 2^31 - 1 sensors, and the end-to-end
  lemmas require the total to stay within i32.
- Window.Grid.OnSensorsUpdated: the panic of `label.unwrap()` after a failed
  cast to a label (src/window.rs:70-71, 89-90) is not modelled, because the
  grid is taken to hold only labels; in the source a non-label widget at
  (2, index) would panic after cell (1, index) had already been rewritten.
- Hwmons.Poll: the receiver is dropped by the user-interface side; the model
  takes the tick before which that happens as an input rather than deriving it
  from the application's lifetime.
- Area.ChartArea.UpdateTemperature: the overflow of `tick += 1` is modelled as
  the panic a debug build raises; a release build would wrap to i32::MIN.
