/** What stands in the frames of the ring, field by field, and what a lagging receiver still reads. */
module TokenRingFrames {
  import opened Machine
  import opened MstpFrames
  import opened TokenRing
  import opened TokenRingAllRuns
  import opened TokenRingInTurn
  import opened TokenRingProgress
  import opened TokenRingLag

  // ---- Every frame that is sent --------------------------------------------------------------

  /** The master that acts. */
  function Actor(action: Action): nat {
    match action
    case Boot => 0
    case Receive(i) => i
    case Drain(i) => i
    case Pass(i) => i
    case Timeout(i) => i
    case Lag(i) => i
    case Enqueue(i, _) => i
  }

  /** The frames that an action adds to the log, in every state. */
  lemma WhatIsSent(s: Ring, action: Action)
    requires ValidSize(s) && Enabled(s, action)
    ensures Step(s, action).log == s.log +
      match action
      case Boot => [Frame(Token, 0, 0, [])]
      case Timeout(i) => if i == 0 then [Frame(Token, 0, 0, [])] else []
      case Pass(i) => [Frame(Token, if i + 1 == |s.nodes| then 0 else i + 1, i, [])]
      case Drain(i) =>
        var pending := s.nodes[i].pending;
        if pending == [] then []
        else [Frame(BacnetDataNotExpectingReply, pending[0].destination, i, pending[0].npdu)]
      case Receive(i) =>
        var frame := s.log[s.nodes[i].cursor];
        if frame.frameType == PollForMaster && frame.destination == i
        then [Frame(ReplyToPollForMaster, frame.source, i, [])] else []
      case Lag(_) => []
      case Enqueue(_, _) => []
  {
    hide NextStation, TokensFrom;
    assert s.log == s.log + [];
    if action.Pass? {
      NextIs(action.i, |s.nodes|);
    }
  }

  lemma SentByActor(s: Ring, action: Action)
    requires ValidSize(s) && Enabled(s, action)
    ensures s.log <= Step(s, action).log
    ensures forall p :: |s.log| <= p < |Step(s, action).log| ==> Step(s, action).log[p].source == Actor(action)
  {
    WhatIsSent(s, action);
  }

  /** How long the log was after the first `k` actions. */
  function LogLength(n: nat, actions: seq<Action>, k: nat): nat
    requires 0 < n <= 255 && k <= |actions|
  {
    match Run(Joined(n), actions[..k])
    case Some(s) => |s.log|
    case None => 0
  }

  /** In every run, with restarts and lag, each frame on the bus names the master that sent it. */
  lemma {:induction false} FramesNameSender(n: nat, actions: seq<Action>, s: Ring, k: nat, p: nat)
    requires 0 < n <= 255 && Run(Joined(n), actions) == Some(s) && k < |actions|
    requires LogLength(n, actions, k) <= p < LogLength(n, actions, k + 1)
    ensures p < |s.log| && s.log[p].source == Actor(actions[k])
    decreases |actions|
  {
    hide Step, Enabled;
    var last := |actions| - 1;
    var u := Run(Joined(n), actions[..last]).value;
    SentByActor(u, actions[last]);
    assert actions[..|actions|] == actions;
    if k < last {
      assert actions[..last][..k] == actions[..k] && actions[..last][..k + 1] == actions[..k + 1];
      FramesNameSender(n, actions[..last], u, k, p);
    }
  }

  // ---- Tokens in turn ----------------------------------------------------------------------------

  /** In every run without a restart the token with number `t`, counted from 0, goes from the master before to the
      master whose turn it is, and carries no data. */
  lemma TokenFields(n: nat, actions: seq<Action>, s: Ring, p: nat)
    requires 0 < n <= 255 && Run(Joined(n), actions) == Some(s) && s.restarts == 0
    requires p < |s.log| && s.log[p].frameType == Token
    ensures var f, t := s.log[p], Ordinal(s.log, p);
      f.destination == t % n && f.source == (if t == 0 then 0 else (t - 1) % n) && f.data == []
  {
    SingleTokenInTurn(n, actions, s);
    assert FrameInTurn(s.log, p, n);
  }

  // ---- Lag ------------------------------------------------------------------------------------------

  /** A receiver lags exactly when more than 512 frames are in front of it.  It then goes on with the oldest of the
      last 512 frames, so it still reads everything that is retained, and has passed over exactly what is not. */
  lemma LagKeepsRetained(s: Ring, i: nat)
    requires ValidSize(s) && CursorsInLog(s) && Listening(s, i)
    ensures Enabled(s, Lag(i)) <==> |s.log| - s.nodes[i].cursor > 512
    ensures Enabled(s, Lag(i)) ==> Step(s, Lag(i)).nodes[i] == s.nodes[i].(cursor := |s.log| - 512)
  {
  }

  /** A master reads every frame unless it lags, and its queue takes 64 frames. */
  lemma WhatMastersMay(s: Ring, i: nat, item: Outbound)
    requires ValidSize(s) && CursorsInLog(s) && i < |s.nodes|
    ensures Listening(s, i) && s.nodes[i].cursor < |s.log| ==> (Enabled(s, Receive(i)) <==> !Enabled(s, Lag(i)))
    ensures Enabled(s, Enqueue(i, item)) <==> |s.nodes[i].pending| < 64
  {
  }
}
