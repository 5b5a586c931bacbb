/**
 * The shared state of the coordination server: the node map, the phone's
 * last computed position and the calibration map. Locking is not modelled:
 * each method is one critical section run on its own.
 */
module Registry {
  import opened Wrappers
  import opened Records
  import opened RegistrySpec
  import Solver

  /** The key of the single tracked target in the visualization data. */
  const PhoneKey: string := "PHONE"

  // ---------------------------------------------------------------------
  // Snapshots

  /** The visualization payload: node positions and the phone's position. */
  datatype Visualization = Visualization(nodes: map<string, Position>, clients: map<string, Position>)

  datatype Liveness = Connected | Disconnected

  /** One line of the periodic status report. */
  datatype NodeStatus = NodeStatus(liveness: Liveness, position: Position, age: int)

  /** The periodic status report; the phone line appears only when there are nodes. */
  datatype StatusReport = StatusReport(total: nat, entries: map<string, NodeStatus>, phone: Option<Position>)

  // ---------------------------------------------------------------------
  // The shared state

  class NodeRegistry {
    var nodes: NodeMap
    var phone: Position
    var calibration: map<string, Calibration>

    ghost predicate Valid()
      reads this
    {
      WellKeyed(nodes) && DefaultKey in calibration
    }

    /** The state the server starts with. */
    constructor ()
      ensures Valid()
      ensures nodes == map[] && phone == Origin
      ensures calibration == map[DefaultKey := DefaultCalibration]
    {
      nodes := map[];
      phone := Origin;
      calibration := map[DefaultKey := DefaultCalibration];
    }

    method Connect(id: string, conn: Conn, now: nat)
      requires Valid()
      modifies this
      ensures Valid()
      ensures nodes == RegistrySpec.Connect(old(nodes), id, conn, now)
      ensures phone == old(phone) && calibration == old(calibration)
    {
      nodes := nodes[id := FreshNode(id, conn, now)];
    }

    method Reconcile(id: string, conn: Conn) returns (closed: Option<Conn>)
      requires Valid()
      modifies this
      ensures Valid()
      ensures (nodes, closed) == RegistrySpec.Reconcile(old(nodes), id, conn)
      ensures phone == old(phone) && calibration == old(calibration)
    {
      closed := None;
      if id in nodes {
        var existing := nodes[id];
        if existing.conn != Some(conn) {
          closed := existing.conn;
          nodes := nodes[id := existing.(conn := Some(conn))];
        }
      }
    }

    method Disconnect(id: string, conn: Conn)
      requires Valid()
      modifies this
      ensures Valid()
      ensures nodes == RegistrySpec.Disconnect(old(nodes), id, conn)
      ensures phone == old(phone) && calibration == old(calibration)
    {
      if id in nodes && nodes[id].conn == Some(conn) {
        nodes := nodes[id := nodes[id].(conn := None)];
      }
    }

    method Touch(id: string, now: nat)
      requires Valid()
      modifies this
      ensures Valid()
      ensures nodes == RegistrySpec.Touch(old(nodes), id, now)
      ensures phone == old(phone) && calibration == old(calibration)
    {
      if id in nodes {
        nodes := nodes[id := nodes[id].(lastSeen := now)];
      }
    }

    method RecordDistance(id: string, rssi: int, distance: real)
      requires Valid()
      modifies this
      ensures Valid()
      ensures nodes == RegistrySpec.RecordDistance(old(nodes), id, rssi, distance)
      ensures phone == old(phone) && calibration == old(calibration)
    {
      if id in nodes {
        nodes := nodes[id := nodes[id].(rssi := rssi, distance := distance)];
      }
    }

    method RecordPosition(id: string, pos: Position)
      requires Valid()
      modifies this
      ensures Valid()
      ensures nodes == RegistrySpec.RecordPosition(old(nodes), id, pos)
      ensures phone == old(phone) && calibration == old(calibration)
    {
      if id in nodes {
        nodes := nodes[id := nodes[id].(position := pos)];
      }
    }

    /** The body of the set-node-position handler, after decoding. */
    method SetPosition(id: string, pos: Position) returns (status: Status)
      requires Valid()
      modifies this
      ensures Valid()
      ensures (nodes, status) == RegistrySpec.SetPosition(old(nodes), id, pos)
      ensures phone == old(phone) && calibration == old(calibration)
    {
      if id !in nodes {
        return NotFound;
      }
      nodes := nodes[id := nodes[id].(position := pos)];
      status := StatusOk;
    }

    /** The body of the calibrate handler, after decoding. */
    method Calibrate(id: string, c: Calibration)
      requires Valid()
      modifies this
      ensures Valid()
      ensures calibration == RegistrySpec.Calibrate(old(calibration), id, c)
      ensures nodes == old(nodes) && phone == old(phone)
    {
      calibration := calibration[id := c];
    }

    /** The calibration pair the RSSI-to-distance conversion would use for `id`. */
    function CalibrationOf(id: string): (r: Calibration)
      reads this
      requires Valid()
      ensures id in calibration ==> r == calibration[id]
      ensures id !in calibration ==> r == calibration[DefaultKey]
    {
      CalibrationFor(calibration, id)
    }

    /** The records with a positive distance, in map iteration order. */
    method CollectEligible() returns (valid: seq<Node>)
      requires Valid()
      ensures ListsEligible(valid, nodes)
    {
      valid := [];
      var pending := nodes.Keys;
      while pending != {}
        invariant pending <= nodes.Keys
        invariant forall i :: 0 <= i < |valid| ==>
          valid[i].id in nodes && valid[i].id !in pending && nodes[valid[i].id] == valid[i] && valid[i].distance > 0.0
        invariant DistinctIds(valid)
        invariant forall k :: k in nodes && k !in pending && nodes[k].distance > 0.0 ==> k in IdsOf(valid)
        decreases pending
      {
        var k :| k in pending;
        if nodes[k].distance > 0.0 {
          IdsOfAppend(valid, nodes[k]);
          valid := valid + [nodes[k]];
        }
        pending := pending - {k};
      }
    }

    /**
     * Recompute the phone position: with at least three eligible nodes it
     * becomes the solver's result from the origin, otherwise it is kept.
     */
    method UpdatePhonePosition(step: Solver.Step) returns (valid: seq<Node>)
      requires Valid()
      modifies this
      ensures Valid()
      ensures ListsEligible(valid, nodes)
      ensures phone == NextPhone(old(phone), valid, step)
      ensures nodes == old(nodes) && calibration == old(calibration)
    {
      valid := CollectEligible();
      if |valid| < 3 {
        return;
      }
      var outcome := Solver.Trilaterate(valid, Origin, step);
      phone := outcome.position;
    }

    /** The visualization payload: every node's position and the phone's. */
    method Snapshot() returns (v: Visualization)
      requires Valid()
      ensures v.nodes.Keys == nodes.Keys
      ensures forall k :: k in nodes ==> v.nodes[k] == nodes[k].position
      ensures v.clients.Keys == {PhoneKey} && v.clients[PhoneKey] == phone
    {
      var positions: map<string, Position> := map[];
      var pending := nodes.Keys;
      while pending != {}
        invariant pending <= nodes.Keys
        invariant positions.Keys == nodes.Keys - pending
        invariant forall k :: k in positions ==> positions[k] == nodes[k].position
        decreases pending
      {
        var k :| k in pending;
        positions := positions[k := nodes[k].position];
        pending := pending - {k};
      }
      v := Visualization(positions, map[PhoneKey := phone]);
    }

    /** The periodic status report at tick `now`. */
    method Report(now: nat) returns (r: StatusReport)
      requires Valid()
      ensures r.total == |nodes|
      ensures r.entries.Keys == nodes.Keys
      ensures forall k :: k in nodes ==>
        && (r.entries[k].liveness == Connected <==> nodes[k].conn.Some?)
        && r.entries[k].position == nodes[k].position
        && r.entries[k].age == now - nodes[k].lastSeen
      ensures r.phone == (if |nodes| > 0 then Some(phone) else None)
    {
      var entries: map<string, NodeStatus> := map[];
      var pending := nodes.Keys;
      while pending != {}
        invariant pending <= nodes.Keys
        invariant entries.Keys == nodes.Keys - pending
        invariant forall k :: k in entries ==>
          && (entries[k].liveness == Connected <==> nodes[k].conn.Some?)
          && entries[k].position == nodes[k].position
          && entries[k].age == now - nodes[k].lastSeen
        decreases pending
      {
        var k :| k in pending;
        var node := nodes[k];
        var liveness := if node.conn != None then Connected else Disconnected;
        entries := entries[k := NodeStatus(liveness, node.position, now - node.lastSeen)];
        pending := pending - {k};
      }
      r := StatusReport(|nodes|, entries, if |nodes| > 0 then Some(phone) else None);
    }
  }
}
