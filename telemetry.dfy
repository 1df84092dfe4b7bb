/** Values and telemetry rows shared by the producer and the position calculator.

    A row of the SpaceX launch telemetry is a JSON object.  The fields that the
    two services read or write are record components; every other field is kept
    in `fields`, an opaque map that both services pass through untouched.
 */
module Telemetry {

  datatype Option<+T> = None | Some(value: T)

  /** A decoded JSON scalar.  Arrays and nested objects never occur as field
      values that the core inspects, so they are not distinguished here. */
  datatype Value = Null | Bool(b: bool) | Int(i: int) | Real(r: real) | Text(s: string)

  /** One telemetry entry.
      - `time`: the sample's timestamp (`row["time"]`);
      - `velocityX`, `velocityY`: `row["velocity_x"]`, `row["velocity_y"]`, absent on some rows;
      - `X`, `Y`: the derived position, absent until the position service sets it;
      - `fields`: every other field (velocity, altitude, mission_id, ...);
        `WellFormed` says it holds none of the fields above. */
  datatype Row = Row(
    time: real,
    velocityX: Option<real>,
    velocityY: Option<real>,
    X: Option<real>,
    Y: Option<real>,
    fields: map<string, Value>)

  /** The JSON fields that have components of their own in `Row`. */
  const ComponentFields: set<string> := {"time", "velocity_x", "velocity_y", "X", "Y"}

  /** A row as decoded from one JSON object: a field with a component of its
      own is not repeated in `fields`, so setting `X` leaves no stale copy. */
  predicate WellFormed(row: Row)
  {
    row.fields.Keys !! ComponentFields
  }

  /** Both velocity components are present. */
  predicate HasVelocity(row: Row)
  {
    row.velocityX.Some? && row.velocityY.Some?
  }

  /** Both velocity components and both position components are present. */
  predicate Complete(row: Row)
  {
    HasVelocity(row) && row.X.Some? && row.Y.Some?
  }

  /** `a` and `b` agree on every field except the position `X`, `Y`. */
  predicate SameExceptPosition(a: Row, b: Row)
  {
    a.time == b.time && a.velocityX == b.velocityX && a.velocityY == b.velocityY && a.fields == b.fields
  }
}
