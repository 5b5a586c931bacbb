/**
 * The records the coordination server keeps: anchor nodes, their 3D
 * positions and the per-node calibration pairs.
 *
 * Go's float64 fields are modelled as mathematical reals (no rounding, no
 * NaN), the WebSocket connection as an opaque handle, and `time.Time` as a
 * tick counter supplied by the caller.
 */
module Records {
  import opened Wrappers

  /** A point in 3D space (the `Position` struct). */
  datatype Position = Position(x: real, y: real, z: real)

  /** The position every node starts at and every solver run starts from. */
  const Origin: Position := Position(0.0, 0.0, 0.0)

  /** An open WebSocket connection, compared by identity as Go compares pointers. */
  datatype Conn = Conn(handle: nat)

  /**
   * One anchor node (the `Node` struct). `conn` is `None` once the node's
   * connection has gone away; the record itself is kept.
   */
  datatype Node = Node(
    id: string,
    conn: Option<Conn>,
    position: Position,
    distance: real,
    rssi: int,
    lastSeen: nat)

  /** The `nodes` map, keyed by node ID. */
  type NodeMap = map<string, Node>

  /** Every record is stored under its own ID. */
  ghost predicate WellKeyed(nodes: NodeMap)
  {
    forall k :: k in nodes ==> nodes[k].id == k
  }

  /** Reference RSSI at one metre and path-loss exponent (`CalibrationParams`). */
  datatype Calibration = Calibration(rssiAt1m: real, pathLoss: real)

  /** The key under which the process-wide fallback pair is stored. */
  const DefaultKey: string := "default"

  /** The fallback pair the server starts with. */
  const DefaultCalibration: Calibration := Calibration(-60.0, 2.0)

  /** What Go's map lookup yields for a missing key: the zero value. */
  const ZeroCalibration: Calibration := Calibration(0.0, 0.0)
}
