/** The position service: derives the position `X`, `Y` of each telemetry row
    from its velocity by trapezoidal integration against the row stored for the
    same message key.  `Integrate` is the specification of one step,
    `StateStore.CalculateXY` the step itself, and `Feed` runs a whole stream of
    one key through `Integrate` so that properties of many steps can be stated.
 */
module PositionXY {
  import opened Telemetry

  /** The mean of the previous and the current velocity times the elapsed
      time, divided by 1000. */
  function Displacement(previous: real, current: real, elapsed: real): real
  {
    ((current + previous) / 2.0) * elapsed / 1000.0
  }

  /** A stored row that has both velocities must also have `X` and `Y`, or the
      integration step could not read them. */
  predicate Storable(prev: Option<Row>)
  {
    prev.Some? && HasVelocity(prev.value) ==> prev.value.X.Some? && prev.value.Y.Some?
  }

  /** What the integrator itself ever stores: nothing, or a complete row. */
  predicate Stored(prev: Option<Row>)
  {
    prev.Some? ==> Complete(prev.value)
  }

  /** The step does not integrate: there is no usable stored row, or time went backwards. */
  predicate StartsOrigin(prev: Option<Row>, row: Row)
  {
    prev.None? || !HasVelocity(prev.value) || row.time < prev.value.time
  }

  /** One integration step: the row emitted for `row` when `prev` is the stored
      row of its key, or `None` when the row is skipped. */
  function Integrate(prev: Option<Row>, row: Row): (out: Option<Row>)
    requires Storable(prev)
    // a row without both velocities is dropped, every other row is emitted
    ensures out.None? <==> !HasVelocity(row)
    // the emitted row is the input with its position set, and is fit to be stored
    ensures out.Some? ==> Complete(out.value) && SameExceptPosition(out.value, row)
    // no usable previous row: the row becomes the origin
    ensures out.Some? && (prev.None? || !HasVelocity(prev.value)) ==>
              out.value.X == Some(0.0) && out.value.Y == Some(0.0)
    // a time regression restarts at the origin instead of integrating across it
    ensures out.Some? && prev.Some? && row.time < prev.value.time ==>
              out.value.X == Some(0.0) && out.value.Y == Some(0.0)
    // otherwise the previous position is advanced by the trapezoidal displacement
    ensures out.Some? && !StartsOrigin(prev, row) ==>
              var p := prev.value;
              && out.value.X.value == p.X.value + Displacement(p.velocityX.value, row.velocityX.value, row.time - p.time)
              && out.value.Y.value == p.Y.value + Displacement(p.velocityY.value, row.velocityY.value, row.time - p.time)
  {
    if !HasVelocity(row) then None
    else
      var origin := row.(X := Some(0.0), Y := Some(0.0));
      if StartsOrigin(prev, row) then Some(origin)
      else
        var p := prev.value;
        var elapsed := row.time - p.time;
        Some(origin.(X := Some(p.X.value + Displacement(p.velocityX.value, row.velocityX.value, elapsed)),
                     Y := Some(p.Y.value + Displacement(p.velocityY.value, row.velocityY.value, elapsed))))
  }

  /** The stored row after a step: the emitted row, or the old one when the row was skipped. */
  function NextState(prev: Option<Row>, out: Option<Row>): Option<Row>
  {
    if out.Some? then out else prev
  }

  /** The trapezoidal displacement lies between the distances covered at the
      smaller and at the larger of the two velocities; equal timestamps give no
      displacement, and a constant velocity gives velocity times time. */
  lemma DisplacementBounds(previous: real, current: real, elapsed: real)
    requires elapsed >= 0.0
    ensures var lo := if previous <= current then previous else current;
            var hi := if previous <= current then current else previous;
            lo * elapsed / 1000.0 <= Displacement(previous, current, elapsed) <= hi * elapsed / 1000.0
    ensures elapsed == 0.0 ==> Displacement(previous, current, elapsed) == 0.0
    ensures previous == current ==> Displacement(previous, current, elapsed) == current * elapsed / 1000.0
  {
    var lo := if previous <= current then previous else current;
    var hi := if previous <= current then current else previous;
    var mean := (current + previous) / 2.0;
    assert lo <= mean <= hi;
    assert lo * elapsed <= mean * elapsed by {
      assert (mean - lo) * elapsed >= 0.0;
    }
    assert mean * elapsed <= hi * elapsed by {
      assert (hi - mean) * elapsed >= 0.0;
    }
  }

  /** With nonnegative velocities and no time regression, a step never moves
      the position backwards. */
  lemma StepNondecreasing(prev: Option<Row>, row: Row)
    requires Stored(prev) && prev.Some? && HasVelocity(row)
    requires NonnegativeVelocity(prev.value) && NonnegativeVelocity(row)
    requires prev.value.time <= row.time
    ensures var out := Integrate(prev, row);
            out.Some? && prev.value.X.value <= out.value.X.value && prev.value.Y.value <= out.value.Y.value
  {
    var p := prev.value;
    var elapsed := row.time - p.time;
    DisplacementBounds(p.velocityX.value, row.velocityX.value, elapsed);
    DisplacementBounds(p.velocityY.value, row.velocityY.value, elapsed);
    assert 0.0 <= (if p.velocityX.value <= row.velocityX.value then p.velocityX.value else row.velocityX.value) * elapsed;
    assert 0.0 <= (if p.velocityY.value <= row.velocityY.value then p.velocityY.value else row.velocityY.value) * elapsed;
  }

  /** Each velocity the row carries is nonnegative. */
  predicate NonnegativeVelocity(row: Row)
  {
    (row.velocityX.Some? ==> row.velocityX.value >= 0.0) && (row.velocityY.Some? ==> row.velocityY.value >= 0.0)
  }

  /** The rows of `rows` that carry both velocities, in order. */
  function WithVelocity(rows: seq<Row>): seq<Row>
  {
    if rows == [] then []
    else (if HasVelocity(rows[0]) then [rows[0]] else []) + WithVelocity(rows[1..])
  }

  /** Runs one key's rows through the integrator, starting from stored row
      `prev`; gives the final stored row and the emitted rows. */
  function Feed(prev: Option<Row>, rows: seq<Row>): (r: (Option<Row>, seq<Row>))
    requires Storable(prev)
    ensures Storable(r.0)
    // one emitted row per row with velocity, in input order, only the position changed
    ensures |r.1| == |WithVelocity(rows)|
    ensures forall i :: 0 <= i < |r.1| ==> Complete(r.1[i]) && SameExceptPosition(r.1[i], WithVelocity(rows)[i])
    // the stored row is the last emitted one, or the initial one if nothing was emitted
    ensures r.0 == if r.1 == [] then prev else Some(r.1[|r.1| - 1])
    decreases |rows|
  {
    if rows == [] then (prev, [])
    else
      var out := Integrate(prev, rows[0]);
      var rest := Feed(NextState(prev, out), rows[1..]);
      var emitted := if out.Some? then [out.value] else [];
      assert WithVelocity(rows) == (if HasVelocity(rows[0]) then [rows[0]] else []) + WithVelocity(rows[1..]);
      (rest.0, emitted + rest.1)
  }

  /** Both positions of `b` are at least those of `a`. */
  predicate NotBehind(a: Row, b: Row)
  {
    a.X.Some? && a.Y.Some? && b.X.Some? && b.Y.Some? && a.X.value <= b.X.value && a.Y.value <= b.Y.value
  }

  /** Positions never decrease along `outs`. */
  predicate Ascending(outs: seq<Row>)
  {
    forall i, j :: 0 <= i < j < |outs| ==> NotBehind(outs[i], outs[j])
  }

  /** No row of `outs` is behind `p`. */
  predicate AllAhead(p: Row, outs: seq<Row>)
  {
    forall i :: 0 <= i < |outs| ==> NotBehind(p, outs[i])
  }

  /** The rows are in nondecreasing time order and none is before `from`. */
  predicate InTimeOrder(rows: seq<Row>, from: Option<Row>)
  {
    && (forall i, j :: 0 <= i < j < |rows| ==> rows[i].time <= rows[j].time)
    && (from.Some? ==> forall i :: 0 <= i < |rows| ==> from.value.time <= rows[i].time)
  }

  lemma AscendingPrepend(o: Row, rest: seq<Row>)
    requires Ascending(rest) && AllAhead(o, rest)
    ensures Ascending([o] + rest)
  {
    var outs := [o] + rest;
    forall i, j | 0 <= i < j < |outs| ensures NotBehind(outs[i], outs[j]) {
      assert outs[j] == rest[j - 1];
      if i > 0 {
        assert outs[i] == rest[i - 1];
      }
    }
  }

  lemma AllAheadPrepend(p: Row, o: Row, rest: seq<Row>)
    requires NotBehind(p, o) && AllAhead(o, rest)
    ensures AllAhead(p, [o] + rest)
  {
    var outs := [o] + rest;
    forall i | 0 <= i < |outs| ensures NotBehind(p, outs[i]) {
      if i > 0 {
        assert outs[i] == rest[i - 1];
      }
    }
  }

  /** Times that never decrease and velocities that are never negative give
      positions that never decrease: along the emitted rows, and relative to
      the stored row the stream starts from. */
  lemma {:induction false} FeedNondecreasing(prev: Option<Row>, rows: seq<Row>)
    requires Stored(prev)
    requires prev.Some? ==> NonnegativeVelocity(prev.value)
    requires forall i :: 0 <= i < |rows| ==> NonnegativeVelocity(rows[i])
    requires InTimeOrder(rows, prev)
    ensures Ascending(Feed(prev, rows).1)
    ensures prev.Some? ==> AllAhead(prev.value, Feed(prev, rows).1)
    decreases |rows|
  {
    if rows == [] {
      return;
    }
    var out := Integrate(prev, rows[0]);
    var next := NextState(prev, out);
    var tail := rows[1..];
    assert forall i :: 0 <= i < |tail| ==> tail[i] == rows[i + 1];
    assert InTimeOrder(tail, next);
    FeedNondecreasing(next, tail);
    var rest := Feed(next, tail).1;
    var outs := Feed(prev, rows).1;
    if out.Some? {
      assert outs == [out.value] + rest;
      AscendingPrepend(out.value, rest);
      if prev.Some? {
        StepNondecreasing(prev, rows[0]);
        AllAheadPrepend(prev.value, out.value, rest);
      }
    } else {
      assert outs == rest;
    }
  }

  /** From an empty state the emitted positions start at 0 and never
      decrease, so none is negative. */
  lemma FeedFromEmptyNonnegative(rows: seq<Row>)
    requires forall i :: 0 <= i < |rows| ==> NonnegativeVelocity(rows[i])
    requires InTimeOrder(rows, None)
    ensures forall i :: 0 <= i < |Feed(None, rows).1| ==>
              0.0 <= Feed(None, rows).1[i].X.value && 0.0 <= Feed(None, rows).1[i].Y.value
  {
    FeedNondecreasing(None, rows);
    var outs := Feed(None, rows).1;
    if outs != [] {
      FirstFromEmptyIsOrigin(rows);
      forall i | 0 < i < |outs| ensures NotBehind(outs[0], outs[i]) { }
    }
  }

  /** From an empty state the first emitted row is at the origin. */
  lemma {:induction false} FirstFromEmptyIsOrigin(rows: seq<Row>)
    requires Feed(None, rows).1 != []
    ensures Feed(None, rows).1[0].X == Some(0.0) && Feed(None, rows).1[0].Y == Some(0.0)
    decreases |rows|
  {
    var out := Integrate(None, rows[0]);
    if out.None? {
      FirstFromEmptyIsOrigin(rows[1..]);
    }
  }

  /** After a time regression the stream continues exactly as if it had begun
      with the regressing row: nothing from before the regression survives. */
  lemma RegressionRestarts(prev: Option<Row>, row: Row, rest: seq<Row>)
    requires Storable(prev) && prev.Some? && HasVelocity(row) && row.time < prev.value.time
    ensures Feed(prev, [row] + rest) == Feed(None, [row] + rest)
  {
    assert ([row] + rest)[0] == row;
    assert ([row] + rest)[1..] == rest;
    assert Integrate(prev, row) == Integrate(None, row);
  }

  /** Velocity 0, 10, 10 at times 0, 1000, 2000 (and no vertical velocity)
      gives X = 0, 5, 15. */
  lemma ThreeSampleExample()
    ensures var rows := [Sample(0.0, 0.0), Sample(1000.0, 10.0), Sample(2000.0, 10.0)];
            var outs := Feed(None, rows).1;
            |outs| == 3 && outs[0].X == Some(0.0) && outs[1].X == Some(5.0) && outs[2].X == Some(15.0)
            && outs[0].Y == Some(0.0) && outs[1].Y == Some(0.0) && outs[2].Y == Some(0.0)
  {
    var rows := [Sample(0.0, 0.0), Sample(1000.0, 10.0), Sample(2000.0, 10.0)];
    var o0 := Integrate(None, rows[0]);
    assert o0 == Some(rows[0].(X := Some(0.0), Y := Some(0.0)));
    var o1 := Integrate(o0, rows[1]);
    assert o1.value.X == Some(5.0);
    var o2 := Integrate(o1, rows[2]);
    assert o2.value.X == Some(15.0);
    assert rows[1..][1..] == [rows[2]];
    assert Feed(o1, rows[1..][1..]).1 == [o2.value];
    assert Feed(o0, rows[1..]).1 == [o1.value, o2.value];
  }

  /** A horizontal-velocity sample for the example. */
  function Sample(time: real, velocityX: real): Row
  {
    Row(time, Some(velocityX), Some(0.0), None, None, map[])
  }

  /** The "previous_row" entry of a key in a state map, if any. */
  function PreviousRow(previous: map<string, Row>, key: string): Option<Row>
  {
    if key in previous then Some(previous[key]) else None
  }

  /** Every row the store holds is complete. */
  predicate StoreValid(previous: map<string, Row>)
  {
    forall k :: k in previous ==> Complete(previous[k])
  }

  /** The rows of key `key` in a stream of keyed messages, in order. */
  function RowsOf(messages: seq<(string, Row)>, key: string): seq<Row>
  {
    if messages == [] then []
    else (if messages[0].0 == key then [messages[0].1] else []) + RowsOf(messages[1..], key)
  }

  /** Runs a stream of keyed messages through the integrator, each against
      the stored row of its own key; gives the final store and the emitted
      keyed rows. */
  function FeedKeyed(previous: map<string, Row>, messages: seq<(string, Row)>): (r: (map<string, Row>, seq<(string, Row)>))
    requires StoreValid(previous)
    ensures StoreValid(r.0)
    decreases |messages|
  {
    if messages == [] then (previous, [])
    else
      var (key, row) := messages[0];
      var out := Integrate(PreviousRow(previous, key), row);
      var next := if out.Some? then previous[key := out.value] else previous;
      var rest := FeedKeyed(next, messages[1..]);
      (rest.0, (if out.Some? then [(key, out.value)] else []) + rest.1)
  }

  /** Keys do not interfere: what the interleaved stream emits for one key is
      what that key's rows alone would emit, in the same order. */
  lemma {:induction false} FeedKeyedPerKey(previous: map<string, Row>, messages: seq<(string, Row)>, key: string)
    requires StoreValid(previous)
    ensures RowsOf(FeedKeyed(previous, messages).1, key) == Feed(PreviousRow(previous, key), RowsOf(messages, key)).1
    decreases |messages|
  {
    if messages == [] {
      return;
    }
    var (k, row) := messages[0];
    var prev := PreviousRow(previous, k);
    var out := Integrate(prev, row);
    var next := if out.Some? then previous[k := out.value] else previous;
    var head := if out.Some? then [(k, out.value)] else [];
    var rest := FeedKeyed(next, messages[1..]).1;
    assert FeedKeyed(previous, messages).1 == head + rest;
    FeedKeyedPerKey(next, messages[1..], key);
    RowsOfAppend(head, rest, key);
    if k == key {
      assert RowsOf(messages, key) == [row] + RowsOf(messages[1..], key);
      assert PreviousRow(next, key) == NextState(prev, out);
      FeedCons(prev, row, RowsOf(messages[1..], key));
      assert RowsOf(head, key) == if out.Some? then [out.value] else [];
    } else {
      assert RowsOf(messages, key) == RowsOf(messages[1..], key);
      assert RowsOf(head, key) == [] by {
        if out.Some? {
          assert head[1..] == [];
        }
      }
      assert PreviousRow(next, key) == PreviousRow(previous, key);
    }
  }

  /** Feeding a row and then the rest is one step followed by the rest. */
  lemma FeedCons(prev: Option<Row>, row: Row, rest: seq<Row>)
    requires Storable(prev)
    ensures var out := Integrate(prev, row);
            Feed(prev, [row] + rest).1 == (if out.Some? then [out.value] else []) + Feed(NextState(prev, out), rest).1
  {
    assert ([row] + rest)[0] == row;
    assert ([row] + rest)[1..] == rest;
  }

  lemma {:induction false} RowsOfAppend(a: seq<(string, Row)>, b: seq<(string, Row)>, key: string)
    ensures RowsOf(a + b, key) == RowsOf(a, key) + RowsOf(b, key)
    decreases |a|
  {
    if a != [] {
      assert (a + b)[1..] == a[1..] + b;
      RowsOfAppend(a[1..], b, key);
    } else {
      assert a + b == b;
    }
  }

  /** The per-key state store (one "previous_row" per message key) and the
      stateful step that reads and writes it. */
  class StateStore {
    var previous: map<string, Row>

    /** Every stored row is complete and well-formed.  Completeness means the
        check for a stored row without velocities never succeeds. */
    ghost predicate Valid()
      reads this
    {
      StoreValid(previous) && forall k :: k in previous ==> WellFormed(previous[k])
    }

    constructor ()
      ensures Valid() && previous == map[]
    {
      previous := map[];
    }

    /** Processes one row of message key `key`: returns the emitted row, or
        `None` when the row is skipped, and stores what it emits. */
    method CalculateXY(key: string, row: Row) returns (out: Option<Row>)
      requires Valid() && WellFormed(row)
      modifies this
      ensures Valid()
      ensures out == Integrate(PreviousRow(old(previous), key), row)
      ensures previous == if out.Some? then old(previous)[key := out.value] else old(previous)
    {
      if row.velocityX.None? || row.velocityY.None? {
        return None;
      }
      var previousRow := PreviousRow(previous, key);
      var current := row.(X := Some(0.0), Y := Some(0.0));
      if previousRow.None? || previousRow.value.velocityX.None? || previousRow.value.velocityY.None? {
        previous := previous[key := current];
        return Some(current);
      }
      var p := previousRow.value;
      if current.time < p.time {
        previous := previous[key := current];
        return Some(current);
      }
      var elapsed := current.time - p.time;
      var velocityX := (current.velocityX.value + p.velocityX.value) / 2.0;
      var velocityY := (current.velocityY.value + p.velocityY.value) / 2.0;
      var distanceX := velocityX * elapsed / 1000.0;
      var distanceY := velocityY * elapsed / 1000.0;
      assert distanceX == Displacement(p.velocityX.value, row.velocityX.value, elapsed);
      assert distanceY == Displacement(p.velocityY.value, row.velocityY.value, elapsed);
      current := current.(X := Some(p.X.value + distanceX), Y := Some(p.Y.value + distanceY));
      previous := previous[key := current];
      out := Some(current);
    }
  }
}
