/**
 * The mutations the server's handlers perform on the node map and the
 * calibration map, as functions on values, with the properties they have.
 * The class `Registry.NodeRegistry` performs exactly these functions on
 * its state.
 */
module RegistrySpec {
  import opened Wrappers
  import opened Records
  import Solver

  /** The record a fresh connection gets: origin, zero distance and RSSI, the new handle. */
  function FreshNode(id: string, conn: Conn, now: nat): (r: Node)
    ensures r.id == id && r.conn == Some(conn) && r.lastSeen == now
    ensures r.position == Origin && r.rssi == 0
    ensures !(r.distance > 0.0)
  {
    Node(id, Some(conn), Origin, 0.0, 0, now)
  }

  /** Only the record under `id` may differ; the set of IDs is the same. */
  ghost predicate OthersUnchanged(before: NodeMap, after: NodeMap, id: string)
  {
    after.Keys == before.Keys && forall k :: k in before && k != id ==> after[k] == before[k]
  }

  // ---------------------------------------------------------------------
  // Node map mutations, as functions

  /** Connecting stores a fresh record under `id`, replacing any earlier one. */
  function Connect(nodes: NodeMap, id: string, conn: Conn, now: nat): (r: NodeMap)
    ensures r.Keys == nodes.Keys + {id}
    ensures r[id].id == id && r[id].conn == Some(conn) && r[id].lastSeen == now
    ensures r[id].position == Origin && r[id].distance == 0.0 && r[id].rssi == 0
    ensures forall k :: k in nodes && k != id ==> r[k] == nodes[k]
  {
    nodes[id := FreshNode(id, conn, now)]
  }

  /**
   * The reconnect check at the start of a session: a record under `id`
   * holding another handle is given `conn`, and the old handle is returned
   * to be closed.
   */
  function Reconcile(nodes: NodeMap, id: string, conn: Conn): (r: (NodeMap, Option<Conn>))
    ensures OthersUnchanged(nodes, r.0, id)
  {
    if id in nodes && nodes[id].conn != Some(conn) then
      (nodes[id := nodes[id].(conn := Some(conn))], nodes[id].conn)
    else (nodes, None)
  }

  /** The end of a session: the record loses its handle only if it is still `conn`. */
  function Disconnect(nodes: NodeMap, id: string, conn: Conn): (r: NodeMap)
    ensures OthersUnchanged(nodes, r, id)
  {
    if id in nodes && nodes[id].conn == Some(conn) then nodes[id := nodes[id].(conn := None)]
    else nodes
  }

  /** Every received frame refreshes the sender's `lastSeen`, if it has a record. */
  function Touch(nodes: NodeMap, id: string, now: nat): (r: NodeMap)
    ensures OthersUnchanged(nodes, r, id)
  {
    if id in nodes then nodes[id := nodes[id].(lastSeen := now)] else nodes
  }

  /** A distance report overwrites the sender's RSSI and distance. */
  function RecordDistance(nodes: NodeMap, id: string, rssi: int, distance: real): (r: NodeMap)
    ensures OthersUnchanged(nodes, r, id)
  {
    if id in nodes then nodes[id := nodes[id].(rssi := rssi, distance := distance)] else nodes
  }

  /** A position write overwrites one record's position. */
  function RecordPosition(nodes: NodeMap, id: string, pos: Position): (r: NodeMap)
    ensures OthersUnchanged(nodes, r, id)
  {
    if id in nodes then nodes[id := nodes[id].(position := pos)] else nodes
  }

  /** Outcome of an administrative request. */
  datatype Status = StatusOk | NotFound

  /** The administrative position write: not-found for an unknown ID. */
  function SetPosition(nodes: NodeMap, id: string, pos: Position): (r: (NodeMap, Status))
    ensures r.1 == NotFound <==> id !in nodes
  {
    if id !in nodes then (nodes, NotFound) else (RecordPosition(nodes, id, pos), StatusOk)
  }

  // ---------------------------------------------------------------------
  // Calibration

  /** The calibration used for `id`: its own pair, else the "default" pair. */
  function CalibrationFor(cal: map<string, Calibration>, id: string): (r: Calibration)
    ensures DefaultKey in cal ==> r in cal.Values
  {
    if id in cal then cal[id]
    else if DefaultKey in cal then cal[DefaultKey]
    else ZeroCalibration
  }

  /** Calibrating stores the pair for any ID, known to the node map or not. */
  function Calibrate(cal: map<string, Calibration>, id: string, c: Calibration): (r: map<string, Calibration>)
    ensures r.Keys == cal.Keys + {id}
  {
    cal[id := c]
  }

  // ---------------------------------------------------------------------
  // Eligibility for trilateration

  /** The IDs of the nodes that report a positive distance. */
  ghost function Eligible(nodes: NodeMap): set<string>
  {
    set k | k in nodes && nodes[k].distance > 0.0
  }

  /** The IDs of the records in a list. */
  ghost function IdsOf(s: seq<Node>): set<string>
  {
    set i | 0 <= i < |s| :: s[i].id
  }

  /** Appending a record adds its ID. */
  lemma IdsOfAppend(s: seq<Node>, n: Node)
    ensures IdsOf(s + [n]) == IdsOf(s) + {n.id}
  {
    var t := s + [n];
    assert t[|s|] == n;
    forall x | x in IdsOf(s) ensures x in IdsOf(t) {
      var i :| 0 <= i < |s| && s[i].id == x;
      assert t[i] == s[i];
    }
  }

  /** No ID occurs twice in the list. */
  ghost predicate DistinctIds(s: seq<Node>)
  {
    forall i, j :: 0 <= i < j < |s| ==> s[i].id != s[j].id
  }

  /**
   * `valid` lists every eligible record of `nodes` exactly once, in some
   * order, and nothing else.
   */
  ghost predicate ListsEligible(valid: seq<Node>, nodes: NodeMap)
  {
    && (forall i :: 0 <= i < |valid| ==> valid[i].id in nodes && nodes[valid[i].id] == valid[i] && valid[i].distance > 0.0)
    && DistinctIds(valid)
    && (forall k :: k in nodes && nodes[k].distance > 0.0 ==> k in IdsOf(valid))
  }

  /** The phone position after a recomputation over the listed nodes. */
  function NextPhone(phone: Position, valid: seq<Node>, step: Solver.Step): (r: Position)
    ensures |valid| < 3 ==> r == phone
    ensures |valid| >= 3 ==> exists k :: 1 <= k <= Solver.MaxIterations && r == Solver.Iterate(step, valid, Origin, k)
  {
    if |valid| < 3 then phone else Solver.Solve(step, valid, Origin)
  }

  // ---------------------------------------------------------------------
  // Properties of the connection lifecycle

  /** Right after connecting, the reconnect check finds its own handle and changes nothing. */
  lemma ConnectThenReconcileIsNoop(nodes: NodeMap, id: string, conn: Conn, now: nat)
    ensures Reconcile(Connect(nodes, id, conn, now), id, conn) == (Connect(nodes, id, conn, now), None)
  {
  }

  /** A record holding another handle is taken over; that handle is handed back to be closed. */
  lemma ReconcileTakesOver(nodes: NodeMap, id: string, conn: Conn)
    requires id in nodes && nodes[id].conn != Some(conn)
    ensures var (r, closed) := Reconcile(nodes, id, conn);
      && OthersUnchanged(nodes, r, id)
      && r[id] == nodes[id].(conn := Some(conn))
      && closed == nodes[id].conn
  {
  }

  /** Disconnecting never removes a record and touches nothing but the handle. */
  lemma DisconnectKeepsRecord(nodes: NodeMap, id: string, conn: Conn)
    requires id in nodes
    ensures id in Disconnect(nodes, id, conn)
    ensures Disconnect(nodes, id, conn)[id] ==
      if nodes[id].conn == Some(conn) then nodes[id].(conn := None) else nodes[id]
  {
  }

  /**
   * When a second connection has replaced a node's record, the end of the
   * first session leaves the newer handle in place.
   */
  lemma LateDisconnectKeepsNewer(nodes: NodeMap, id: string, c1: Conn, c2: Conn, t1: nat, t2: nat)
    requires c1 != c2
    ensures Disconnect(Connect(Connect(nodes, id, c1, t1), id, c2, t2), id, c1)[id].conn == Some(c2)
  {
  }

  /**
   * A disconnect keeps the node's position, but the next connection from
   * the same address rebuilds the record: the position is back at the
   * origin and the distance at zero.
   */
  lemma ReconnectResetsPosition(nodes: NodeMap, id: string, c1: Conn, c2: Conn, pos: Position, t1: nat, t2: nat)
    ensures var n1 := Connect(nodes, id, c1, t1);
      var n2 := SetPosition(n1, id, pos).0;
      var n3 := Disconnect(n2, id, c1);
      && n3[id].position == pos && n3[id].conn == None
      && Connect(n3, id, c2, t2)[id].position == Origin
      && Connect(n3, id, c2, t2)[id].distance == 0.0
  {
  }

  // ---------------------------------------------------------------------
  // Properties of the per-message updates

  /** A received frame changes only the sender's `lastSeen`, and nothing for an unknown sender. */
  lemma TouchOnlyRefreshes(nodes: NodeMap, id: string, now: nat)
    ensures id in nodes ==> Touch(nodes, id, now)[id] == nodes[id].(lastSeen := now)
    ensures id !in nodes ==> Touch(nodes, id, now) == nodes
  {
  }

  /** A distance report changes only the sender's RSSI and distance. */
  lemma DistanceChangesOnlyReadings(nodes: NodeMap, id: string, rssi: int, distance: real)
    ensures id in nodes ==> RecordDistance(nodes, id, rssi, distance)[id] == nodes[id].(rssi := rssi, distance := distance)
    ensures id !in nodes ==> RecordDistance(nodes, id, rssi, distance) == nodes
  {
  }

  /** An unknown ID is reported as not found and nothing changes; a known one gets only its position. */
  lemma SetPositionOutcome(nodes: NodeMap, id: string, pos: Position)
    ensures id !in nodes ==> SetPosition(nodes, id, pos) == (nodes, NotFound)
    ensures id in nodes ==>
      var (r, status) := SetPosition(nodes, id, pos);
      status == StatusOk && OthersUnchanged(nodes, r, id) && r[id] == nodes[id].(position := pos)
  {
  }

  // ---------------------------------------------------------------------
  // Properties of calibration

  /** After calibrating an ID, the lookup for it yields the stored pair. */
  lemma CalibrateThenLookup(cal: map<string, Calibration>, id: string, c: Calibration)
    ensures CalibrationFor(Calibrate(cal, id, c), id) == c
  {
  }

  /**
   * Calibrating one ID changes the lookup of another only when the first
   * is "default" and the other has no pair of its own.
   */
  lemma CalibrateAffectsOnlyItsId(cal: map<string, Calibration>, id: string, other: string, c: Calibration)
    requires other != id
    ensures CalibrationFor(Calibrate(cal, id, c), other) ==
      if id == DefaultKey && other !in cal then c else CalibrationFor(cal, other)
  {
  }

  /** An ID without its own pair uses the "default" pair. */
  lemma LookupFallsBack(cal: map<string, Calibration>, id: string)
    requires id !in cal && DefaultKey in cal
    ensures CalibrationFor(cal, id) == cal[DefaultKey]
  {
  }

  // ---------------------------------------------------------------------
  // Properties of eligibility

  /** A list without repeated IDs has as many IDs as records. */
  lemma {:induction false} DistinctIdsCount(s: seq<Node>)
    requires DistinctIds(s)
    ensures |IdsOf(s)| == |s|
  {
    if s != [] {
      var init := s[..|s| - 1];
      var last := s[|s| - 1];
      assert s == init + [last];
      assert DistinctIds(init);
      DistinctIdsCount(init);
      IdsOfAppend(init, last);
      assert last.id !in IdsOf(init) by {
        forall i | 0 <= i < |init| ensures init[i].id != last.id {
          assert s[i] == init[i];
        }
      }
    }
  }

  /** An eligible listing has exactly as many entries as there are eligible nodes. */
  lemma ListingCountsEligible(valid: seq<Node>, nodes: NodeMap)
    requires ListsEligible(valid, nodes)
    ensures IdsOf(valid) == Eligible(nodes)
    ensures |valid| == |Eligible(nodes)|
  {
    assert IdsOf(valid) <= Eligible(nodes) by {
      forall x | x in IdsOf(valid) ensures x in Eligible(nodes) {
        var i :| 0 <= i < |valid| && valid[i].id == x;
      }
    }
    DistinctIdsCount(valid);
  }

  /**
   * The recomputation gate: the phone position is kept exactly when fewer
   * than three nodes report a positive distance.
   */
  lemma GateCountsEligible(phone: Position, valid: seq<Node>, nodes: NodeMap, step: Solver.Step)
    requires ListsEligible(valid, nodes)
    ensures NextPhone(phone, valid, step) ==
      if |Eligible(nodes)| < 3 then phone else Solver.Solve(step, valid, Origin)
  {
    ListingCountsEligible(valid, nodes);
  }

  /** A distance report makes its sender eligible exactly when the distance is positive. */
  lemma DistanceDecidesEligibility(nodes: NodeMap, id: string, rssi: int, distance: real)
    requires id in nodes
    ensures Eligible(RecordDistance(nodes, id, rssi, distance)) ==
      if distance > 0.0 then Eligible(nodes) + {id} else Eligible(nodes) - {id}
  {
  }

  /** A (re)connection makes the node ineligible until its next positive distance report. */
  lemma ConnectClearsEligibility(nodes: NodeMap, id: string, conn: Conn, now: nat)
    ensures Eligible(Connect(nodes, id, conn, now)) == Eligible(nodes) - {id}
  {
  }

  /** Refreshes, position writes and disconnects leave eligibility as it was. */
  lemma EligibilityOnlyFollowsDistance(nodes: NodeMap, id: string, now: nat, pos: Position, conn: Conn)
    ensures Eligible(Touch(nodes, id, now)) == Eligible(nodes)
    ensures Eligible(RecordPosition(nodes, id, pos)) == Eligible(nodes)
    ensures Eligible(Disconnect(nodes, id, conn)) == Eligible(nodes)
  {
  }
}
