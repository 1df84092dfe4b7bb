# SpaceX launch telemetry replay: a verified model of its core

The repository replays the archived telemetry of a SpaceX launch as a live
stream through Kafka topics. Two services hold real logic, and this project
models both:

- **The telemetry producer** (`launch-telemetry-producer/main.py`). It takes
  the launch record from the launch dashboard API. It copies `mission_id`,
  `name`, `flight_number` and the first analysed stage's `stage` onto every
  telemetry entry. Then it publishes the entries in order under the key
  `"{mission_id}-stage-{stage}"`. Before each entry after the first it sleeps
  until that entry's time offset from the *first* entry has passed since the
  loop started.
- **The position calculator** (`position-xy-calculation/main.py`). For each
  message key it keeps the last emitted row as state. For each new row it does
  one of three things:
  - drops the row if it lacks `velocity_x` or `velocity_y`;
  - starts at the origin `X = Y = 0` if there is no usable stored row or time
    went backwards;
  - otherwise advances `X`, `Y` by a trapezoidal step
    `((v + v_prev) / 2) * (t - t_prev) / 1000`.

  In every case except the drop, the emitted row becomes the new state.

Files:

- `telemetry.dfy` (module `Telemetry`): JSON scalars (`Value`) and telemetry
  rows (`Row`: `time`, optional `velocity_x`/`velocity_y`, optional `X`/`Y`,
  and a map holding every other field).
- `position_xy.dfy` (module `PositionXY`):
  - `Integrate`, the specification of one step;
  - class `StateStore`, whose `CalculateXY` is the stateful step over a per-key
    map of stored rows;
  - `Feed` and `FeedKeyed`, which run a stream of rows through the integrator
    so that properties of several steps can be stated.
- `format.dfy` (module `Format`): Python's `str()` of the values that go into
  the message key, the key itself (`MakeKey`), and a parser (`SplitKey`) that
  reads a key back.
- `launch_producer.dfy` (module `LaunchProducer`):
  - the enrichment of `get_data` (`Stamp`, the in-place loop `Enrich` over an
    array, and `GetData`);
  - the wait computation (`WaitTime`);
  - an `Environment` class: a clock that never runs backwards, a sleep that
    lasts at least as long as asked, a ghost log of produced messages with
    the clock reading at each, and a ghost record of the amounts slept;
  - the pacing loop `PublishPaced` and `main` as `RunProducer`.

Behaviour of the code that the model keeps as written:

- The position calculator skips a row only when `velocity_x` or `velocity_y`
  is missing. It never checks for `time`.
- An empty telemetry list is not a no-op: the producer fails on
  `telemetry_data[0]` (launch-telemetry-producer/main.py:62) before it
  publishes anything. The model returns `Err(EmptyTelemetry)` and leaves the
  log and the sleeps unchanged.
- A negative wait is clamped to zero and nothing else happens; no anomaly is
  recorded.

## Model

| member | source | states |
|---|---|---|
| `PositionXY.Integrate` | position-xy-calculation/main.py:16-55 | A row lacking either velocity gives no row, and every other row gives one. The emitted row equals the input except for `X`, `Y`, and it carries both velocities and both positions. No stored row, or a stored row without velocities, gives `X = Y = 0`. A timestamp before the stored row's also gives `X = Y = 0`. Otherwise `X`, `Y` are the stored position plus the trapezoidal displacement over `t - t_prev`. |
| `PositionXY.StateStore.CalculateXY` | position-xy-calculation/main.py:16-55 | For a well-formed row (no `time`, `velocity_x`, `velocity_y`, `X` or `Y` duplicated among its other fields), the stateful step returns exactly `Integrate` of the key's stored row. The key's stored row becomes the emitted row, and stays unchanged when the row is skipped. No other key's state changes. The invariant that every stored row is complete and well-formed is preserved, so the "stored row lacks velocities" test at line 27 never succeeds. |
| `PositionXY.DisplacementBounds` | position-xy-calculation/main.py:37-45 | For a nonnegative time step, the trapezoidal displacement lies between the distances at the smaller and at the larger velocity. Equal timestamps give zero displacement. A constant velocity gives velocity × time / 1000. |
| `PositionXY.StepNondecreasing` | position-xy-calculation/main.py:36-49 | With nonnegative velocities and no time regression, one step never decreases `X` or `Y`. |
| `PositionXY.Feed` | position-xy-calculation/main.py:18-55 | Over a stream of one key, one row is emitted per input row that has both velocities, in input order, and only the position differs. The final stored row is the last emitted row, or the initial one if nothing was emitted. |
| `PositionXY.FeedNondecreasing` | position-xy-calculation/main.py:36-49 | Nondecreasing times and nonnegative velocities give positions that never decrease along the emitted rows, and none falls below the stored row the stream starts from. |
| `PositionXY.FirstFromEmptyIsOrigin` | position-xy-calculation/main.py:22-29 | From an empty state, the first emitted row is at `X = Y = 0`. |
| `PositionXY.FeedFromEmptyNonnegative` | position-xy-calculation/main.py:22-49 | From an empty state, with nonnegative velocities and nondecreasing times, no emitted position is negative. |
| `PositionXY.RegressionRestarts` | position-xy-calculation/main.py:31-34 | After a time regression the stream continues exactly as if it had begun at the regressing row, so nothing before it influences later positions. |
| `PositionXY.ThreeSampleExample` | position-xy-calculation/main.py:36-49 | Velocity 0, 10, 10 at times 0, 1000, 2000 gives `X` = 0, 5, 15 and `Y` = 0. |
| `PositionXY.FeedKeyed` | position-xy-calculation/main.py:58 | Running interleaved keyed messages keeps every stored row complete. |
| `PositionXY.FeedKeyedPerKey` | position-xy-calculation/main.py:58 | Per-key state means keys do not interfere: what an interleaved stream emits for one key equals what that key's rows alone emit, in the same order. |
| `LaunchProducer.Stamp` | launch-telemetry-producer/main.py:43-47 | An enriched entry has `mission_id`, `name`, `flight_number` and `stage` set to the launch's values, overwriting any earlier value. All other fields, the timestamp, the velocities and the position are unchanged. No field is removed. A well-formed entry stays well-formed. |
| `LaunchProducer.StampIdempotent` | launch-telemetry-producer/main.py:43-47 | Enriching an entry twice is the same as enriching it once. |
| `LaunchProducer.Enrich` | launch-telemetry-producer/main.py:43-47 | The in-place loop leaves every array element equal to the enrichment of its old value. |
| `LaunchProducer.GetData` | launch-telemetry-producer/main.py:34-49 | Fails exactly when the `analysed` list is empty. Otherwise it returns the mission id, the first stage, and that stage's entries, each enriched, with count and order kept. |
| `Format.ParseNatText` | launch-telemetry-producer/main.py:60 | The decimal text of a natural number parses back to that number. |
| `Format.Display` | launch-telemetry-producer/main.py:60 | Python's `str()` as an f-string applies it: text is inserted unchanged, and an int gives a nonempty numeral that is all digits exactly when the int is not negative. By its definition, `None`, booleans and short-decimal floats are written as Python writes them. |
| `Format.MakeKey` | launch-telemetry-producer/main.py:60 | The key is `Display(mission_id)`, then `-stage-`, then `Display(stage)`, and nothing else. |
| `Format.SplitMakeKey` | launch-telemetry-producer/main.py:60 | For an integer stage, the key can be read back into the mission id text and the stage. |
| `LaunchProducer.WaitTime` | launch-telemetry-producer/main.py:81 | The wait is nonnegative and at least the remaining offset `target - elapsed`. It equals either that offset or zero, so it is `max(0, target - elapsed)`. |
| `LaunchProducer.Environment.Time` | launch-telemetry-producer/main.py:61 | A clock reading is the current time, and the clock never runs backwards. |
| `LaunchProducer.Environment.Sleep` | launch-telemetry-producer/main.py:82 | A sleep advances the clock by at least the requested nonnegative amount, and records that amount. |
| `LaunchProducer.Environment.Produce` | launch-telemetry-producer/main.py:69-73 | Producing appends exactly one message (key, row, current clock reading) to the log. |
| `LaunchProducer.PublishPaced` | launch-telemetry-producer/main.py:61-82 | For a nonempty list, every row is published exactly once, in index order, under the one key, whatever its timestamps. Every publication comes after the loop's start reading. Row `i > 0` goes out no earlier than `time[i] - time[0]` after that start, so delays are anchored to the first sample. The sleeps made are exactly one wait between consecutive rows and none after the last. Wait `k` is `max(0, (time[k+1] - time[0]) - (now - start))`, where `now` is a clock reading taken after row `k` is published, and `now` plus the wait is no later than the publication of row `k + 1`. |
| `LaunchProducer.RunProducer` | launch-telemetry-producer/main.py:57-82 | Fails, publishing nothing, exactly when there is no analysed stage or no telemetry. Otherwise it publishes every enriched entry once, in order, under `MakeKey(mission_id, stage)`. Entry `i` goes out no earlier than `time[i] - time[0]` after the producer started, and exactly one sleep is made per entry after the first; a failure sleeps not at all. |

## Left out

- The HTTP request and JSON decoding (`requests.get`, `response.json()`,
  launch-telemetry-producer/main.py:30-31) are external I/O. A missing key in
  the payload (`KeyError`) belongs to the same decoding. The model takes the
  decoded launch record as input, with its fields present. Of the decoding
  errors it keeps only the index error of `analysed[0]`.
- `json.dumps` of each row (line 66) is serialisation. The log records the row
  value itself.
- Kafka application, topic and producer setup, `os.environ`/dotenv loading,
  the `print` calls, and the `KeyboardInterrupt` handler are configuration and
  console output.
- The real-time behaviour of `time.time()` and `time.sleep`: the clock is
  abstract, and a sleep has only a lower bound. There is no upper bound on a
  sleep, so the model cannot state that a replay of duration `D` finishes
  close to `D`, only that it takes at least `D`.
- Line 81 subtracts wall-clock seconds from differences of the telemetry's own
  `time` field without converting units. The model keeps the same unit-free
  arithmetic and does not invent a conversion.
- Float rounding in the `/ 2` and `/ 1000` of the position step: the model
  computes over exact reals.
- Quix Streams state handling (`stateful=True`, position-xy-calculation/main.py:58)
  is abstracted to a map from message key to stored row. So is its
  serialisation, and so is the framework's treatment of a `None` result from
  `apply`. The model only says that no row is produced.
- A row without a `time` field cannot be expressed here, because `Row.time` is
  always present. The code does not check for `time`, and such a row would
  fail with a `KeyError` at line 32 once a row is stored.
- Field values are typed: a `time`, `velocity_x` or `velocity_y` that is
  present but `null` or not a number cannot be expressed. The code tests only
  that the key is present, so such a row is not skipped: it can be emitted at
  the origin and stored, and a later step raises `TypeError`
  (position-xy-calculation/main.py:32, 40). In the producer, a `null` `time`
  raises `TypeError` at launch-telemetry-producer/main.py:79.
- Aliasing between the returned row and the stored row (the same dict object
  in Python) is not modelled: rows are values.
- `Display` renders a float with its exact decimal digits, at most 17 of them
  after the point. Python's shortest round-trip repr and its exponent notation
  for very large or very small floats are not modelled. JSON arrays and
  objects are not distinguished as values.
- `rocket-visualization/main.py` is a Flask/SocketIO front end. It has a server
  thread, and `send_telemetry` only renames fields and negates `angle` before
  a websocket emit.
- `interpolation/main.py`'s `interpolate` returns its row unchanged.
- The repository has no code for gap filling, resampling, per-key
  scheduling, bounded queues or sharding, so the model has none either.
