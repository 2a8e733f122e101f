/** MS/TP token passing over a broadcast bus, as a state machine.
    A node is one master's task; the bus is the log of every frame sent, into which
    each node has its own read cursor.  A run is a sequence of atomic actions. */
module TokenRing {
  import opened Machine
  import opened MstpFrames

  /** Frames the bus retains for a slow receiver. */
  const BUS_CHANNEL_CAPACITY := 512
  /** Frames a master's outbound queue holds. */
  const OUTBOUND_CAPACITY := 64

  datatype MasterState = Initialize | Idle | UseToken

  datatype Outbound = Outbound(destination: U8, npdu: Bytes)

  /** `drained` says that the holder has looked at its queue during the present hold. */
  datatype Node = Node(state: MasterState, drained: bool, cursor: nat, received: nat, pending: seq<Outbound>)

  /** A node's new state and the frames it put on the bus. */
  datatype Effect = Effect(node: Node, sent: seq<Frame>)

  const JOINED := Node(Initialize, false, 0, 0, [])

  function NextStation(address: U8, maxMaster: U8): (r: U8)
    requires maxMaster < 255
  {
    (address + 1) % (maxMaster + 1)
  }

  function TokenFrame(destination: U8, source: U8): Frame {
    Frame(Token, destination, source, [])
  }

  function DataFrame(source: U8, item: Outbound): Frame {
    Frame(BacnetDataNotExpectingReply, item.destination, source, item.npdu)
  }

  // ---- What one master does -----------------------------------------------

  /** The receive loop takes the next frame off the bus. */
  function ReceiveFrame(address: U8, node: Node, frame: Frame): Effect {
    var seen := node.(cursor := node.cursor + 1);
    if frame.frameType.Token? && frame.destination == address then
      Effect(seen.(state := UseToken, drained := false, received := node.received + 1), [])
    else if frame.frameType.PollForMaster? && frame.destination == address then
      Effect(seen, [Frame(ReplyToPollForMaster, frame.source, address, [])])
    else
      Effect(seen, [])
  }

  /** The holder sends at most one queued frame. */
  function DrainPending(address: U8, node: Node): Effect {
    if node.pending == [] then
      Effect(node.(drained := true), [])
    else
      Effect(node.(drained := true, pending := node.pending[1..]), [DataFrame(address, node.pending[0])])
  }

  /** The holder hands the token on. */
  function PassToken(address: U8, maxMaster: U8, node: Node): Effect
    requires maxMaster < 255
  {
    Effect(node.(state := Idle), [TokenFrame(NextStation(address, maxMaster), address)])
  }

  /** No token came in time: address 0 starts a new one, the others wait again. */
  function RingTimeout(address: U8, node: Node): Effect {
    Effect(node, if address == 0 then [TokenFrame(0, 0)] else [])
  }

  /** A receiver that fell behind by more than the bus retains resumes at the oldest frame kept. */
  function LagSkip(node: Node, logLength: nat): Node
    requires node.cursor + BUS_CHANNEL_CAPACITY < logLength
  {
    node.(cursor := logLength - BUS_CHANNEL_CAPACITY)
  }

  // ---- The ring -------------------------------------------------------------

  /** `submitted`, `skipped` and `restarts` record the run: what callers queued at each master,
      tokens jumped over by lagging receivers, and tokens made by address 0 on timeout. */
  datatype Ring = Ring(
    nodes: seq<Node>,
    log: seq<Frame>,
    booted: bool,
    submitted: seq<seq<Outbound>>,
    skipped: nat,
    restarts: nat)

  datatype Action =
    | Boot
    | Receive(i: nat)
    | Drain(i: nat)
    | Pass(i: nat)
    | Timeout(i: nat)
    | Lag(i: nat)
    | Enqueue(i: nat, item: Outbound)

  /** Masters 0 to size-1 have joined and nothing was sent. */
  function Joined(size: nat): Ring
  {
    Ring(seq(size, _ => JOINED), [], false, seq(size, _ => []), 0, 0)
  }

  predicate ValidSize(s: Ring) {
    0 < |s.nodes| <= 255 && |s.submitted| == |s.nodes|
  }

  predicate Holds(node: Node) {
    node.state.UseToken?
  }

  /** The loop of address 0 starts only after it has booted the ring. */
  predicate Listening(s: Ring, i: nat) {
    i < |s.nodes| && !Holds(s.nodes[i]) && (i == 0 ==> s.booted)
  }

  predicate Enabled(s: Ring, action: Action) {
    match action
    case Boot => !s.booted
    case Receive(i) => Listening(s, i) && s.nodes[i].cursor < |s.log| <= s.nodes[i].cursor + BUS_CHANNEL_CAPACITY
    case Drain(i) => i < |s.nodes| && Holds(s.nodes[i]) && !s.nodes[i].drained
    case Pass(i) => i < |s.nodes| && Holds(s.nodes[i]) && s.nodes[i].drained
    case Timeout(i) => Listening(s, i)
    case Lag(i) => Listening(s, i) && s.nodes[i].cursor + BUS_CHANNEL_CAPACITY < |s.log|
    case Enqueue(i, _) => i < |s.nodes| && |s.nodes[i].pending| < OUTBOUND_CAPACITY
  }

  function Apply(s: Ring, i: nat, e: Effect): Ring
    requires i < |s.nodes|
  {
    s.(nodes := s.nodes[i := e.node], log := s.log + e.sent)
  }

  predicate IsToken(f: Frame) {
    f.frameType.Token?
  }

  predicate IsTokenTo(f: Frame, destination: nat) {
    IsToken(f) && f.destination == destination
  }

  /** Tokens addressed to `destination` at positions `from` and later. */
  function TokensFrom(log: seq<Frame>, from: nat, destination: nat): nat {
    if |log| <= from then 0
    else TokensFrom(log[..|log| - 1], from, destination) + if IsTokenTo(log[|log| - 1], destination) then 1 else 0
  }

  function Step(s: Ring, action: Action): Ring
    requires ValidSize(s) && Enabled(s, action)
  {
    match action
    case Boot => s.(booted := true, log := s.log + [TokenFrame(0, 0)])
    case Receive(i) => Apply(s, i, ReceiveFrame(i, s.nodes[i], s.log[s.nodes[i].cursor]))
    case Drain(i) => Apply(s, i, DrainPending(i, s.nodes[i]))
    case Pass(i) => Apply(s, i, PassToken(i, |s.nodes| - 1, s.nodes[i]))
    case Timeout(i) =>
      Apply(s, i, RingTimeout(i, s.nodes[i])).(restarts := s.restarts + if i == 0 then 1 else 0)
    case Lag(i) =>
      var node := LagSkip(s.nodes[i], |s.log|);
      s.(nodes := s.nodes[i := node], skipped := s.skipped + TokensFrom(s.log[..node.cursor], s.nodes[i].cursor, i))
    case Enqueue(i, item) =>
      s.(nodes := s.nodes[i := s.nodes[i].(pending := s.nodes[i].pending + [item])],
         submitted := s.submitted[i := s.submitted[i] + [item]])
  }

  /** The state after a whole run, or nothing when the run takes a step that is not enabled. */
  function Run(s: Ring, actions: seq<Action>): Option<Ring>
    requires ValidSize(s)
    decreases |actions|
  {
    if actions == [] then Some(s)
    else
      match Run(s, actions[..|actions| - 1])
      case None => None
      case Some(t) =>
        if ValidSize(t) && Enabled(t, actions[|actions| - 1]) then Some(Step(t, actions[|actions| - 1])) else None
  }
}
