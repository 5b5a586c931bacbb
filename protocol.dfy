/**
 * The frames a node sends and the replies the server writes back.
 *
 * Decoding is done before the model sees a frame: a frame that decodes as
 * a JSON `Message` arrives as `Structured`, any other frame as `Plain`
 * with its raw text and WebSocket frame type.
 */
module Protocol {
  import opened Wrappers
  import opened Records

  /** WebSocket data frame types. */
  datatype FrameKind = TextFrame | BinaryFrame

  /**
   * A decoded JSON message. `coords` is the same frame decoded once more as
   * a bare `Position`, or `None` when that second decoding fails.
   */
  datatype Message = Message(kind: string, nodeId: string, rssi: int, distance: real, coords: Option<Position>)

  /** An inbound frame as the read loop classifies it. */
  datatype Inbound = Structured(msg: Message) | Plain(frameKind: FrameKind, text: string)

  /** An inbound frame together with the tick at which it was read. */
  datatype Received = Received(at: nat, frame: Inbound)

  /** An outbound frame. */
  datatype Outbound = Outbound(frameKind: FrameKind, data: string)

  const Ping: string := "PING"
  const Pong: string := "PONG"
  const Register: string := "REGISTER"
  const IdTag: string := "ID:"

  /** The message types the dispatcher acts on; any other type is ignored. */
  const DistanceType: string := "distance"
  const CalibrationType: string := "calibration"
  const PositionType: string := "position"

  /** The identity frame: "ID:" followed by the node ID, as a text frame. */
  function IdFrame(id: string): (r: Outbound)
    ensures r.frameKind == TextFrame
    ensures |r.data| == |IdTag| + |id| && r.data[..|IdTag|] == IdTag && r.data[|IdTag|..] == id
  {
    Outbound(TextFrame, IdTag + id)
  }

  /** A structured report of type "distance". */
  predicate IsDistanceReport(f: Inbound)
  {
    f.Structured? && f.msg.kind == DistanceType
  }

  /**
   * The reply to one inbound frame: "PONG" in the frame type of a plain
   * "PING", the identity frame for a plain "REGISTER", nothing otherwise.
   */
  function Reply(id: string, f: Inbound): (r: Option<Outbound>)
    ensures r.Some? <==> f.Plain? && (f.text == Ping || f.text == Register)
  {
    match f
    case Structured(_) => None
    case Plain(k, text) =>
      if text == Ping then Some(Outbound(k, Pong))
      else if text == Register then Some(IdFrame(id))
      else None
  }

  /** The replies to a sequence of frames, in order. */
  function Replies(id: string, frames: seq<Received>): (r: seq<Outbound>)
    ensures |r| <= |frames|
  {
    if frames == [] then []
    else
      var last := frames[|frames| - 1];
      Replies(id, frames[..|frames| - 1]) + (if Reply(id, last.frame).Some? then [Reply(id, last.frame).value] else [])
  }

  /** A plain "REGISTER" is answered with exactly the frame sent on connect. */
  lemma RegisterRepeatsGreeting(id: string, k: FrameKind)
    ensures Reply(id, Plain(k, Register)) == Some(IdFrame(id))
  {
  }

  /** A plain "PING" is answered with "PONG" in the same frame type. */
  lemma PingAnsweredInKind(id: string, k: FrameKind)
    ensures Reply(id, Plain(k, Ping)) == Some(Outbound(k, Pong))
  {
  }

  /** Structured messages of any type, and any other text, get no reply. */
  lemma {:induction false} OnlyControlTextIsAnswered(id: string, frames: seq<Received>)
    requires forall i :: 0 <= i < |frames| ==> !(frames[i].frame.Plain? && frames[i].frame.text in {Ping, Register})
    ensures Replies(id, frames) == []
  {
    if frames != [] {
      OnlyControlTextIsAnswered(id, frames[..|frames| - 1]);
    }
  }

  /** Every reply is either "PONG" or the identity frame. */
  lemma {:induction false} RepliesAreControlFrames(id: string, frames: seq<Received>)
    ensures forall o :: o in Replies(id, frames) ==> o.data == Pong || o == IdFrame(id)
  {
    if frames != [] {
      RepliesAreControlFrames(id, frames[..|frames| - 1]);
    }
  }
}
