/**
 * The WebSocket session: a connection is named from its remote address,
 * its record is stored, the identity frame is sent, every received frame
 * is dispatched, and when reading stops the record is marked disconnected.
 */
module Handlers {
  import opened Wrappers
  import opened Records
  import opened NodeIds
  import opened Protocol
  import opened RegistrySpec
  import opened Registry
  import Solver

  /** A structured report of type "position" that also decoded as a position. */
  predicate IsPositionReport(f: Inbound)
  {
    f.Structured? && f.msg.kind == PositionType && f.msg.coords.Some?
  }

  /**
   * What one received frame does to the sender's record: `lastSeen` is
   * refreshed, then a distance report overwrites RSSI and distance and a
   * position report the position. Calibration reports, unknown types and
   * plain text change nothing more. The `node_id` field of a message is
   * ignored: the sender is the connection's node.
   */
  function ApplyFrame(node: Node, r: Received): (n: Node)
    ensures n.id == node.id && n.conn == node.conn && n.lastSeen == r.at
    ensures IsDistanceReport(r.frame) ==> n.rssi == r.frame.msg.rssi && n.distance == r.frame.msg.distance
    ensures !IsDistanceReport(r.frame) ==> n.rssi == node.rssi && n.distance == node.distance
    ensures IsPositionReport(r.frame) ==> n.position == r.frame.msg.coords.value
    ensures !IsPositionReport(r.frame) ==> n.position == node.position
  {
    var seen := node.(lastSeen := r.at);
    match r.frame
    case Structured(m) =>
      if m.kind == DistanceType then seen.(rssi := m.rssi, distance := m.distance)
      else if m.kind == PositionType && m.coords.Some? then seen.(position := m.coords.value)
      else seen
    case Plain(_, _) => seen
  }

  /** The sender's record after a sequence of frames. */
  function Replay(node: Node, frames: seq<Received>): (r: Node)
    ensures r.id == node.id && r.conn == node.conn
    ensures r.lastSeen == if frames == [] then node.lastSeen else frames[|frames| - 1].at
  {
    if frames == [] then node
    else ApplyFrame(Replay(node, frames[..|frames| - 1]), frames[|frames| - 1])
  }

  /**
   * Over a session, without position reports the position is unchanged,
   * and without distance reports so are RSSI and distance.
   */
  lemma {:induction false} ReplayFacts(node: Node, frames: seq<Received>)
    ensures (forall i :: 0 <= i < |frames| ==> !IsPositionReport(frames[i].frame)) ==>
      Replay(node, frames).position == node.position
    ensures (forall i :: 0 <= i < |frames| ==> !IsDistanceReport(frames[i].frame)) ==>
      Replay(node, frames).distance == node.distance && Replay(node, frames).rssi == node.rssi
  {
    if frames != [] {
      var init := frames[..|frames| - 1];
      ReplayFacts(node, init);
      assert forall i :: 0 <= i < |init| ==> init[i] == frames[i];
    }
  }

  /** The node map after the first `j` frames of a session of `id` that started from `start`. */
  ghost function MapAfter(nodes0: NodeMap, id: string, start: Node, frames: seq<Received>, j: nat): NodeMap
    requires j <= |frames|
  {
    nodes0[id := Replay(start, frames[..j])]
  }

  /** Frame `j` is a distance report that found at least three eligible nodes, so the phone was recomputed. */
  ghost predicate Recomputes(nodes0: NodeMap, id: string, start: Node, frames: seq<Received>, j: nat)
    requires j < |frames|
  {
    IsDistanceReport(frames[j].frame) && |Eligible(MapAfter(nodes0, id, start, frames, j + 1))| >= 3
  }

  /**
   * The phone after the first `i` frames: unchanged when no frame so far
   * recomputed it, otherwise the solver's result over the eligible nodes
   * as they stood at the last frame that did.
   */
  ghost predicate PhoneAfter(phone0: Position, phone: Position, nodes0: NodeMap, id: string, start: Node,
                             frames: seq<Received>, i: nat, step: Solver.Step)
    requires i <= |frames|
    decreases i
  {
    if i == 0 then phone == phone0
    else if Recomputes(nodes0, id, start, frames, i - 1) then
      exists v :: ListsEligible(v, MapAfter(nodes0, id, start, frames, i)) && phone == Solver.Solve(step, v, Origin)
    else PhoneAfter(phone0, phone, nodes0, id, start, frames, i - 1, step)
  }

  /** A session without distance reports leaves the phone where it was. */
  lemma {:induction false} NoDistanceKeepsPhone(phone0: Position, phone: Position, nodes0: NodeMap, id: string,
                                                 start: Node, frames: seq<Received>, i: nat, step: Solver.Step)
    requires i <= |frames|
    requires PhoneAfter(phone0, phone, nodes0, id, start, frames, i, step)
    ensures (forall j :: 0 <= j < i ==> !IsDistanceReport(frames[j].frame)) ==> phone == phone0
    decreases i
  {
    if i > 0 && !Recomputes(nodes0, id, start, frames, i - 1) {
      NoDistanceKeepsPhone(phone0, phone, nodes0, id, start, frames, i - 1, step);
    }
  }

  /** One more frame applies that frame to the session's record. */
  lemma MapAfterStep(nodes0: NodeMap, id: string, start: Node, frames: seq<Received>, i: nat)
    requires i < |frames|
    ensures id in MapAfter(nodes0, id, start, frames, i)
    ensures MapAfter(nodes0, id, start, frames, i + 1) ==
      MapAfter(nodes0, id, start, frames, i)[id := ApplyFrame(MapAfter(nodes0, id, start, frames, i)[id], frames[i])]
  {
    assert frames[..i + 1][..i] == frames[..i];
  }

  /** One more frame appends that frame's reply, if any. */
  lemma RepliesStep(id: string, frames: seq<Received>, i: nat)
    requires i < |frames|
    ensures Replies(id, frames[..i + 1]) ==
      Replies(id, frames[..i]) + (if Reply(id, frames[i].frame).Some? then [Reply(id, frames[i].frame).value] else [])
  {
    assert frames[..i + 1][..i] == frames[..i];
  }

  /** One more frame extends the account of the phone by that frame's effect. */
  lemma PhoneAfterStep(phone0: Position, phone: Position, next: Position, nodes0: NodeMap, id: string, start: Node,
                       frames: seq<Received>, i: nat, step: Solver.Step, valid: seq<Node>)
    requires i < |frames|
    requires PhoneAfter(phone0, phone, nodes0, id, start, frames, i, step)
    requires IsDistanceReport(frames[i].frame) ==>
      ListsEligible(valid, MapAfter(nodes0, id, start, frames, i + 1)) && next == NextPhone(phone, valid, step)
    requires !IsDistanceReport(frames[i].frame) ==> next == phone
    ensures PhoneAfter(phone0, next, nodes0, id, start, frames, i + 1, step)
  {
    if IsDistanceReport(frames[i].frame) {
      GateCountsEligible(phone, valid, MapAfter(nodes0, id, start, frames, i + 1), step);
    }
  }

  /**
   * One iteration of the read loop: refresh the sender, dispatch the frame,
   * and return the reply to write, if any. A distance report triggers the
   * phone recomputation, which also returns the eligible records it used.
   */
  method HandleFrame(reg: NodeRegistry, id: string, r: Received, step: Solver.Step)
    returns (reply: Option<Outbound>, valid: seq<Node>)
    requires reg.Valid()
    modifies reg
    ensures reg.Valid()
    ensures id in old(reg.nodes) ==> reg.nodes == old(reg.nodes)[id := ApplyFrame(old(reg.nodes)[id], r)]
    ensures id !in old(reg.nodes) ==> reg.nodes == old(reg.nodes)
    ensures reg.calibration == old(reg.calibration)
    ensures reply == Reply(id, r.frame)
    ensures IsDistanceReport(r.frame) ==> ListsEligible(valid, reg.nodes) && reg.phone == NextPhone(old(reg.phone), valid, step)
    ensures !IsDistanceReport(r.frame) ==> reg.phone == old(reg.phone)
  {
    reg.Touch(id, r.at);
    reply, valid := None, [];
    match r.frame {
      case Structured(m) =>
        if m.kind == DistanceType {
          reg.RecordDistance(id, m.rssi, m.distance);
          valid := reg.UpdatePhonePosition(step);
        } else if m.kind == CalibrationType {
          // acknowledged in the log only
        } else if m.kind == PositionType {
          if m.coords.Some? {
            reg.RecordPosition(id, m.coords.value);
          }
        }
      case Plain(k, text) =>
        if text == Ping {
          reply := Some(Outbound(k, Pong));
        } else if text == Register {
          reply := Some(IdFrame(id));
        }
    }
  }

  /**
   * Where a session of `id` stands after its first `i` frames, when it
   * started from the map `nodes0`, the record `start`, the phone `phone0`
   * and the calibration map `calibration0`: the registry is well formed,
   * the map is `nodes0` with the record replayed over those frames, the
   * calibration is untouched, `replies` are those frames' replies and the
   * phone is as `PhoneAfter` says.
   */
  ghost predicate InSession(reg: NodeRegistry, replies: seq<Outbound>, id: string, frames: seq<Received>,
                            i: nat, step: Solver.Step, nodes0: NodeMap, start: Node, phone0: Position,
                            calibration0: map<string, Calibration>)
    reads reg
  {
    i <= |frames| && reg.Valid()
    && reg.nodes == MapAfter(nodes0, id, start, frames, i)
    && reg.calibration == calibration0
    && replies == Replies(id, frames[..i])
    && PhoneAfter(phone0, reg.phone, nodes0, id, start, frames, i, step)
  }

  /**
   * Frame `i` of a session: handles the frame, appends its reply, and
   * carries the session's account of the map and the phone one frame
   * further.
   */
  method ReadStep(reg: NodeRegistry, id: string, frames: seq<Received>, i: nat, step: Solver.Step,
                  replies: seq<Outbound>, ghost nodes0: NodeMap, ghost start: Node, ghost phone0: Position,
                  ghost calibration0: map<string, Calibration>)
    returns (replies': seq<Outbound>)
    requires i < |frames|
    requires InSession(reg, replies, id, frames, i, step, nodes0, start, phone0, calibration0)
    modifies reg
    ensures InSession(reg, replies', id, frames, i + 1, step, nodes0, start, phone0, calibration0)
  {
    MapAfterStep(nodes0, id, start, frames, i);
    RepliesStep(id, frames, i);
    var reply, valid := HandleFrame(reg, id, frames[i], step);
    PhoneAfterStep(phone0, old(reg.phone), reg.phone, nodes0, id, start, frames, i, step, valid);
    replies' := if reply.Some? then replies + [reply.value] else replies;
  }

  /**
   * The read loop of a session whose record is stored under `id`: every
   * frame is handled in order and its reply written. Returns the replies.
   */
  method ReadLoop(reg: NodeRegistry, id: string, frames: seq<Received>, step: Solver.Step)
    returns (replies: seq<Outbound>)
    requires reg.Valid() && id in reg.nodes
    modifies reg
    ensures reg.Valid()
    ensures replies == Replies(id, frames)
    ensures reg.nodes == old(reg.nodes)[id := Replay(old(reg.nodes)[id], frames)]
    ensures reg.calibration == old(reg.calibration)
    ensures (forall i :: 0 <= i < |frames| ==> !IsDistanceReport(frames[i].frame)) ==> reg.phone == old(reg.phone)
    ensures PhoneAfter(old(reg.phone), reg.phone, old(reg.nodes), id, old(reg.nodes)[id], frames, |frames|, step)
  {
    ghost var nodes0, start, phone0, calibration0 := reg.nodes, reg.nodes[id], reg.phone, reg.calibration;
    replies := [];
    var i := 0;
    while i < |frames|
      invariant InSession(reg, replies, id, frames, i, step, nodes0, start, phone0, calibration0)
    {
      replies := ReadStep(reg, id, frames, i, step, replies, nodes0, start, phone0, calibration0);
      i := i + 1;
    }
    SessionEnd(phone0, reg.phone, nodes0, id, start, frames, step);
  }

  /** What the account of a session says once all of its frames are read. */
  lemma SessionEnd(phone0: Position, phone: Position, nodes0: NodeMap, id: string, start: Node,
                   frames: seq<Received>, step: Solver.Step)
    requires PhoneAfter(phone0, phone, nodes0, id, start, frames, |frames|, step)
    ensures MapAfter(nodes0, id, start, frames, |frames|) == nodes0[id := Replay(start, frames)]
    ensures Replies(id, frames[..|frames|]) == Replies(id, frames)
    ensures (forall i :: 0 <= i < |frames| ==> !IsDistanceReport(frames[i].frame)) ==> phone == phone0
  {
    assert frames[..|frames|] == frames;
    NoDistanceKeepsPhone(phone0, phone, nodes0, id, start, frames, |frames|, step);
  }

  /**
   * `handleMessages` for the connection `conn` of node `id`: the reconnect
   * check installs `conn` in the record, the identity frame is sent, the
   * frames are read, and the record is then marked disconnected.
   */
  method HandleMessages(reg: NodeRegistry, conn: Conn, id: string, frames: seq<Received>, step: Solver.Step)
    returns (sent: seq<Outbound>)
    requires reg.Valid() && id in reg.nodes
    modifies reg
    ensures reg.Valid()
    ensures sent == [IdFrame(id)] + Replies(id, frames)
    ensures var start := old(reg.nodes)[id].(conn := Some(conn));
      reg.nodes == old(reg.nodes)[id := Replay(start, frames).(conn := None)]
    ensures reg.calibration == old(reg.calibration)
    ensures (forall i :: 0 <= i < |frames| ==> !IsDistanceReport(frames[i].frame)) ==> reg.phone == old(reg.phone)
    ensures var start := old(reg.nodes)[id].(conn := Some(conn));
      PhoneAfter(old(reg.phone), reg.phone, old(reg.nodes)[id := start], id, start, frames, |frames|, step)
  {
    ghost var start := reg.nodes[id].(conn := Some(conn));
    var _ := reg.Reconcile(id, conn);
    assert reg.nodes == old(reg.nodes)[id := start];
    sent := [IdFrame(id)];
    var replies := ReadLoop(reg, id, frames, step);
    sent := sent + replies;
    ghost var last := Replay(start, frames);
    assert reg.nodes == old(reg.nodes)[id := last] && last.conn == Some(conn);
    reg.Disconnect(id, conn);
  }

  /**
   * A whole connection from `remoteAddr` that delivers `frames` and then
   * stops (`wsHandler`): the node ID is derived, a fresh record stored,
   * and the messages handled. Returns the node ID and every frame written,
   * starting with the identity frame.
   */
  method WsHandler(reg: NodeRegistry, remoteAddr: string, conn: Conn, connectedAt: nat,
                   frames: seq<Received>, step: Solver.Step)
    returns (id: string, sent: seq<Outbound>)
    requires reg.Valid()
    requires ':' in remoteAddr
    modifies reg
    ensures reg.Valid()
    ensures id == NodeId(remoteAddr)
    ensures sent == [IdFrame(id)] + Replies(id, frames)
    ensures reg.nodes == old(reg.nodes)[id := Replay(FreshNode(id, conn, connectedAt), frames).(conn := None)]
    ensures reg.calibration == old(reg.calibration)
    ensures (forall i :: 0 <= i < |frames| ==> !IsDistanceReport(frames[i].frame)) ==> reg.phone == old(reg.phone)
    ensures PhoneAfter(old(reg.phone), reg.phone, old(reg.nodes)[id := FreshNode(id, conn, connectedAt)], id,
                       FreshNode(id, conn, connectedAt), frames, |frames|, step)
  {
    id := NodeId(remoteAddr);
    reg.Connect(id, conn, connectedAt);
    assert reg.nodes[id].(conn := Some(conn)) == FreshNode(id, conn, connectedAt);
    assert reg.nodes[id := FreshNode(id, conn, connectedAt)] == reg.nodes;
    sent := HandleMessages(reg, conn, id, frames, step);
  }
}
