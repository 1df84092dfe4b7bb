/** The telemetry producer: takes the launch record fetched from the launch
    dashboard API, stamps the launch's identity onto every telemetry entry, and
    replays the entries to the output topic with the delays their timestamps
    imply, every delay measured from the first sample.

    The wall clock, `sleep` and the broker producer are the `Environment`: a
    clock that never goes backwards, a sleep that lasts at least as long as
    asked, and a log of everything produced.
 */
module LaunchProducer {
  import opened Telemetry
  import opened Format

  const MissionIdField: string := "mission_id"
  const NameField: string := "name"
  const FlightNumberField: string := "flight_number"
  const StageField: string := "stage"

  /** The launch-level values copied onto every entry. */
  datatype Tags = Tags(missionId: Value, name: Value, flightNumber: Value, stage: Value)

  /** One element of the launch record's "analysed" list. */
  datatype Analysis = Analysis(stage: Value, telemetry: seq<Row>)

  /** The decoded launch record. */
  datatype Launch = Launch(missionId: Value, name: Value, flightNumber: Value, analysed: seq<Analysis>)

  /** What `get_data` returns: mission id, stage and the enriched entries. */
  datatype Fetched = Fetched(missionId: Value, stage: Value, telemetry: seq<Row>)

  /** The two ways the producer fails before publishing: `analysed[0]` on an
      empty list, and `telemetry_data[0]` on an empty list. */
  datatype ProducerError = NoAnalysedStage | EmptyTelemetry

  datatype Result<T> = Ok(value: T) | Err(error: ProducerError)

  /** The entry with the four launch fields set, overwriting any it had. */
  function Stamp(entry: Row, tags: Tags): (r: Row)
    ensures r.time == entry.time && r.velocityX == entry.velocityX && r.velocityY == entry.velocityY
    ensures r.X == entry.X && r.Y == entry.Y
    ensures r.fields.Keys == entry.fields.Keys + {MissionIdField, NameField, FlightNumberField, StageField}
    ensures r.fields[MissionIdField] == tags.missionId && r.fields[NameField] == tags.name
    ensures r.fields[FlightNumberField] == tags.flightNumber && r.fields[StageField] == tags.stage
    ensures forall k :: k in entry.fields && k !in {MissionIdField, NameField, FlightNumberField, StageField} ==>
                          r.fields[k] == entry.fields[k]
    // the four fields are not ones with components of their own
    ensures WellFormed(entry) ==> WellFormed(r)
  {
    entry.(fields := entry.fields[MissionIdField := tags.missionId][NameField := tags.name]
                                 [FlightNumberField := tags.flightNumber][StageField := tags.stage])
  }

  /** Stamping twice is stamping once. */
  lemma StampIdempotent(entry: Row, tags: Tags)
    ensures Stamp(Stamp(entry, tags), tags) == Stamp(entry, tags)
  {
    var once := Stamp(entry, tags);
    var twice := Stamp(once, tags);
    assert twice.fields == once.fields;
  }

  /** The enrichment loop of `get_data`: stamps every entry in place. */
  method Enrich(entries: array<Row>, tags: Tags)
    modifies entries
    ensures forall i :: 0 <= i < entries.Length ==> entries[i] == Stamp(old(entries[i]), tags)
  {
    for i := 0 to entries.Length
      invariant forall j :: 0 <= j < i ==> entries[j] == Stamp(old(entries[j]), tags)
      invariant forall j :: i <= j < entries.Length ==> entries[j] == old(entries[j])
    {
      entries[i] := Stamp(entries[i], tags);
    }
  }

  /** The launch values that `get_data` stamps onto the entries. */
  function TagsOf(launch: Launch): Tags
    requires launch.analysed != []
  {
    Tags(launch.missionId, launch.name, launch.flightNumber, launch.analysed[0].stage)
  }

  /** The first analysed stage's entries, each stamped with the launch values. */
  function EnrichedTelemetry(launch: Launch): (r: seq<Row>)
    requires launch.analysed != []
    ensures |r| == |launch.analysed[0].telemetry|
    ensures forall i :: 0 <= i < |r| ==> r[i] == Stamp(launch.analysed[0].telemetry[i], TagsOf(launch))
  {
    var source := launch.analysed[0].telemetry;
    seq(|source|, i requires 0 <= i < |source| => Stamp(source[i], TagsOf(launch)))
  }

  /** `get_data` after the HTTP fetch: picks the first analysed stage and
      returns its entries, each stamped, in their original order. */
  method GetData(launch: Launch) returns (r: Result<Fetched>)
    ensures r.Err? <==> launch.analysed == []
    ensures r.Err? ==> r.error == NoAnalysedStage
    ensures r.Ok? ==>
              && r.value.missionId == launch.missionId && r.value.stage == launch.analysed[0].stage
              && r.value.telemetry == EnrichedTelemetry(launch)
  {
    if launch.analysed == [] {
      return Err(NoAnalysedStage);
    }
    var missionId, name, flightNumber := launch.missionId, launch.name, launch.flightNumber;
    var telemetry := launch.analysed[0].telemetry;
    var stage := launch.analysed[0].stage;
    var entries := new Row[|telemetry|](i requires 0 <= i < |telemetry| => telemetry[i]);
    Enrich(entries, Tags(missionId, name, flightNumber, stage));
    assert entries[..] == EnrichedTelemetry(launch);
    return Ok(Fetched(missionId, stage, entries[..]));
  }

  /** How long to sleep before the next row: what is left of its offset
      `target` from the first sample once `elapsed` has passed, never negative. */
  function WaitTime(target: real, elapsed: real): (w: real)
    ensures w >= 0.0 && w >= target - elapsed
    ensures w == 0.0 || w == target - elapsed
  {
    if 0.0 >= target - elapsed then 0.0 else target - elapsed
  }

  /** Sleeping at least the computed wait after reading `now` brings the
      clock to at least `start + target`; a row already due costs no wait. */
  lemma WaitReachesTarget(start: real, now: real, target: real, slept: real)
    requires slept >= WaitTime(target, now - start)
    ensures now + slept - start >= target
    ensures now - start >= target ==> WaitTime(target, now - start) == 0.0
  {
  }

  /** One produced message and the clock reading when it was handed to the producer. */
  datatype Publication = Publication(key: string, value: Row, at: real)

  /** The clock, the sleep and the producer that the replay uses. */
  class Environment {
    var now: real
    ghost var log: seq<Publication>
    /** Every amount passed to `Sleep`, in call order. */
    ghost var slept: seq<real>

    constructor (start: real)
      ensures now == start && log == [] && slept == []
    {
      now := start;
      log := [];
      slept := [];
    }

    /** `time.time()`: the current reading; the clock never runs backwards. */
    method Time() returns (t: real)
      modifies this
      ensures now >= old(now) && t == now && log == old(log) && slept == old(slept)
    {
      t := now;
    }

    /** `time.sleep(d)`: returns no earlier than `d` after it was called. */
    method Sleep(d: real)
      requires d >= 0.0
      modifies this
      ensures now >= old(now) + d && log == old(log) && slept == old(slept) + [d]
    {
      now := now + d;
      slept := slept + [d];
    }

    /** `producer.produce(topic, key, value)`: appends one message. */
    method Produce(key: string, value: Row)
      modifies this
      ensures log == old(log) + [Publication(key, value, old(now))] && now >= old(now) && slept == old(slept)
    {
      log := log + [Publication(key, value, now)];
    }
  }

  /** From index `base` on, `log` holds exactly `rows`, in order, each under `key`. */
  ghost predicate PublishedInOrder(log: seq<Publication>, base: nat, key: string, rows: seq<Row>)
  {
    && |log| == base + |rows|
    && forall j :: base <= j < |log| ==> log[j].key == key && log[j].value == rows[j - base]
  }

  /** Every row after the first was published no earlier than its time
      offset from the first row after `start`. */
  ghost predicate AnchoredToFirst(log: seq<Publication>, base: nat, rows: seq<Row>, start: real)
    requires |log| == base + |rows|
  {
    forall j :: base < j < |log| ==> log[j].at - start >= rows[j - base].time - rows[0].time
  }

  /** Anchoring to a start reading also holds for any earlier start. */
  lemma AnchoredEarlier(log: seq<Publication>, base: nat, rows: seq<Row>, start: real, earlier: real)
    requires |log| == base + |rows| && earlier <= start && AnchoredToFirst(log, base, rows, start)
    ensures AnchoredToFirst(log, base, rows, earlier)
  {
  }

  /** The publishing loop of `main`: produces every row under `key`, in
      index order, and before each row after the first sleeps until its time
      offset from the first row has passed since the loop started. */
  method PublishPaced(env: Environment, key: string, rows: seq<Row>)
      returns (ghost start: real, ghost readings: seq<real>, ghost waits: seq<real>)
    requires |rows| > 0
    modifies env
    // each row exactly once, in order, under the one key, after what was there
    ensures PublishedInOrder(env.log, |old(env.log)|, key, rows) && env.log[..|old(env.log)|] == old(env.log)
    // every row is published after the loop started
    ensures old(env.now) <= start
    ensures forall j :: |old(env.log)| <= j < |env.log| ==> start <= env.log[j].at
    // first-sample anchoring: row i goes out no earlier than its offset from row 0
    ensures AnchoredToFirst(env.log, |old(env.log)|, rows, start)
    // the sleeps are exactly one wait between consecutive rows and none after
    // the last, ...
    ensures |readings| == |rows| - 1 && |waits| == |rows| - 1 && env.slept == old(env.slept) + waits
    // ... each computed from the offset of the next row and a clock reading
    // taken after publishing row k, and over before row k + 1 is published
    ensures forall k :: 0 <= k < |waits| ==>
              && env.log[|old(env.log)| + k].at <= readings[k]
              && readings[k] + waits[k] <= env.log[|old(env.log)| + k + 1].at
              && waits[k] == WaitTime(rows[k + 1].time - rows[0].time, readings[k] - start)
  {
    ghost var base := |env.log|;
    var startLoop := env.Time();
    start := startLoop;
    var firstTime := rows[0].time;
    readings, waits := [], [];
    for i := 0 to |rows|
      invariant |env.log| == base + i && env.log[..base] == old(env.log)
      invariant forall j :: base <= j < base + i ==> env.log[j].key == key && env.log[j].value == rows[j - base]
      invariant start <= env.now
      invariant forall j :: base <= j < base + i ==> start <= env.log[j].at <= env.now
      invariant forall j :: base < j < base + i ==> env.log[j].at - start >= rows[j - base].time - firstTime
      invariant 0 < i < |rows| ==> env.now - start >= rows[i].time - firstTime
      invariant |readings| == |waits| == (if i == |rows| then i - 1 else i)
      invariant env.slept == old(env.slept) + waits
      invariant 0 < i < |rows| ==> readings[i - 1] + waits[i - 1] <= env.now
      invariant forall k :: 0 <= k < |waits| ==>
                  && env.log[base + k].at <= readings[k]
                  && (base + k + 1 < |env.log| ==> readings[k] + waits[k] <= env.log[base + k + 1].at)
                  && waits[k] == WaitTime(rows[k + 1].time - firstTime, readings[k] - start)
    {
      env.Produce(key, rows[i]);
      if i < |rows| - 1 {
        var nextTime := rows[i + 1].time;
        var timeDiff := nextTime - firstTime;
        var now := env.Time();
        var timeToWait := WaitTime(timeDiff, now - startLoop);
        env.Sleep(timeToWait);
        WaitReachesTarget(startLoop, now, timeDiff, timeToWait);
        readings, waits := readings + [now], waits + [timeToWait];
      }
    }
  }

  /** `main`: fetches (from an already decoded launch record), builds the key
      and replays the entries; fails without publishing anything when there
      is no analysed stage or no telemetry. */
  method RunProducer(env: Environment, launch: Launch) returns (r: Result<string>)
    modifies env
    ensures r.Err? <==> launch.analysed == [] || launch.analysed[0].telemetry == []
    ensures r.Err? ==> env.log == old(env.log) && env.slept == old(env.slept)
    ensures r.Ok? ==>
              && r.value == MakeKey(launch.missionId, launch.analysed[0].stage)
              && PublishedInOrder(env.log, |old(env.log)|, r.value, EnrichedTelemetry(launch))
              && env.log[..|old(env.log)|] == old(env.log)
              && AnchoredToFirst(env.log, |old(env.log)|, EnrichedTelemetry(launch), old(env.now))
              && |env.slept| == |old(env.slept)| + |EnrichedTelemetry(launch)| - 1
              && env.slept[..|old(env.slept)|] == old(env.slept)
  {
    var fetched := GetData(launch);
    if fetched.Err? {
      return Err(fetched.error);
    }
    var missionId, stage, telemetry := fetched.value.missionId, fetched.value.stage, fetched.value.telemetry;
    var key := MakeKey(missionId, stage);
    if telemetry == [] {
      var startLoop := env.Time();
      return Err(EmptyTelemetry);
    }
    ghost var base, earliest := |env.log|, env.now;
    ghost var start, readings, waits := PublishPaced(env, key, telemetry);
    AnchoredEarlier(env.log, base, telemetry, start, earliest);
    return Ok(key);
  }
}
