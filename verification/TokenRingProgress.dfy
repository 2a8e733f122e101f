/** The main results on rings without restarts: one token, in turn, shared evenly, never stuck. */
module TokenRingProgress {
  import opened Machine
  import opened Modular
  import opened TokenRing
  import opened TokenRingAllRuns
  import opened TokenRingInTurn

  lemma {:induction false} RunOrderly(n: nat, actions: seq<Action>, s: Ring)
    requires 0 < n <= 255 && Run(Joined(n), actions) == Some(s) && s.restarts == 0
    ensures Orderly(s) && |s.nodes| == n && s.skipped == 0
    decreases |actions|
  {
    if actions != [] {
      var last := |actions| - 1;
      var t := Run(Joined(n), actions[..last]).value;
      RunOrderly(n, actions[..last], t);
      StepOrderly(t, actions[last]);
      if actions[last].Lag? {
        NoLag(t, actions[last].i);
      }
    }
  }

  lemma ShareOrdered(K: nat, i: nat, j: nat, n: nat)
    requires i <= j < n
    ensures Share(K, j, n) <= Share(K, i, n) <= Share(K, j, n) + 1
  {
    DivMonotone(K + n - 1 - j, K + n - 1 - i, n);
    DivMonotone(K + n - 1 - i, K + n - 1 - j + n, n);
    DivPlusDivisor(K + n - 1 - j, n);
  }

  /** In every run without a restart the log is the tokens in turn with at most one data frame after
      each, at most one master holds a token, the shares are even, and no receiver lags. */
  lemma SingleTokenInTurn(n: nat, actions: seq<Action>, s: Ring)
    requires 0 < n <= 255 && Run(Joined(n), actions) == Some(s) && s.restarts == 0
    ensures |s.nodes| == n && InTurn(s.log, n)
    ensures s.skipped == 0 && Total(s.nodes, s.log, n) == if s.booted then 1 else 0
    ensures forall i, j :: 0 <= i < n && 0 <= j < n && Holds(s.nodes[i]) && Holds(s.nodes[j]) ==> i == j
    ensures s.booted ==> TokensSent(s.log) > 0
    ensures s.booted ==> forall i :: 0 <= i < n ==> s.nodes[i].received == Share(TokensReceived(s), i, n)
    ensures forall i, j :: 0 <= i <= j < n ==> s.nodes[j].received <= s.nodes[i].received <= s.nodes[j].received + 1
    ensures forall i :: 0 <= i < n ==> !Enabled(s, Lag(i))
  {
    RunOrderly(n, actions, s);
    EveryRun(n, actions, s);
    forall i | 0 <= i < n ensures !Enabled(s, Lag(i)) { NoLag(s, i); }
    if s.booted {
      forall i, j | 0 <= i <= j < n
        ensures s.nodes[j].received <= s.nodes[i].received <= s.nodes[j].received + 1
      {
        ShareOrdered(TokensReceived(s), i, j, n);
      }
    }
  }

  // ---- Progress ------------------------------------------------------------------

  /** The one action that moves the token on. */
  function NextAction(s: Ring): Action
    requires Circulating(s)
  {
    var turn := s.nodes[Turn(s)];
    if !Holds(turn) then Receive(Turn(s)) else if !turn.drained then Drain(Turn(s)) else Pass(Turn(s))
  }

  /** Steps the master whose turn it is needs before it next changes hands with the bus. */
  function Distance(s: Ring): nat
    requires Circulating(s)
  {
    var turn := s.nodes[Turn(s)];
    if !Holds(turn) then Newest(s.log) - turn.cursor else if turn.drained then 0 else 1
  }

  lemma NextEnabled(s: Ring)
    requires Circulating(s)
    ensures Enabled(s, NextAction(s))
  {
    NoLag(s, Turn(s));
  }

  /** What an action that is not the next one leaves alone. */
  predicate Undisturbed(s: Ring, t: Ring)
    requires Circulating(s) && Circulating(t)
  {
    && NextAction(t) == NextAction(s)
    && Distance(t) == Distance(s)
    && TokensReceived(t) == TokensReceived(s)
  }

  /** What the next action achieves: it passes the token on, delivers it, or comes closer. */
  predicate Advanced(s: Ring, t: Ring)
    requires Circulating(s) && Circulating(t)
  {
    if NextAction(s).Pass? then
      TokensReceived(t) == TokensReceived(s) && TokensSent(t.log) == TokensSent(s.log) + 1
      && !Holds(t.nodes[Turn(t)])
    else if NextAction(s).Receive? && Distance(s) == 0 then
      TokensReceived(t) == TokensReceived(s) + 1 && TokensSent(t.log) == TokensSent(s.log)
      && Holds(t.nodes[Turn(t)])
    else
      TokensReceived(t) == TokensReceived(s) && TokensSent(t.log) == TokensSent(s.log)
      && Distance(t) < Distance(s)
  }

  lemma SameTurn(s: Ring, t: Ring)
    requires Circulating(s) && Circulating(t) && t.log == s.log && |t.nodes| == |s.nodes|
    requires t.nodes[Turn(s)] == s.nodes[Turn(s)]
    ensures Undisturbed(s, t)
  {
  }

  lemma ReceiveTurn(s: Ring)
    requires Circulating(s) && NextAction(s) == Receive(Turn(s)) && Enabled(s, NextAction(s))
    requires Circulating(Step(s, NextAction(s)))
    ensures Advanced(s, Step(s, NextAction(s)))
  {
    var i := Turn(s);
    var node := s.nodes[i];
    var e := ReceiveFrame(i, node, s.log[node.cursor]);
    NewestIsToken(s.log, |s.nodes|);
    assert FrameInTurn(s.log, node.cursor, |s.nodes|);
    assert e.sent == [];
    assert Step(s, NextAction(s)).log == s.log;
    if node.cursor < Newest(s.log) {
      assert !IsTokenTo(s.log[node.cursor], i);
      assert e.node == node.(cursor := node.cursor + 1);
    } else {
      assert Holds(e.node);
    }
  }

  lemma DrainProgress(s: Ring, i: nat)
    requires Circulating(s) && Enabled(s, Drain(i)) && Circulating(Step(s, Drain(i)))
    ensures Drain(i) == NextAction(s) && Advanced(s, Step(s, Drain(i)))
  {
    if s.nodes[i].pending != [] {
      TokensSentAppend(s.log, DataFrame(i, s.nodes[i].pending[0]));
    } else {
      assert Step(s, Drain(i)).log == s.log;
    }
  }

  lemma PassProgress(s: Ring, i: nat)
    requires Circulating(s) && Enabled(s, Pass(i)) && Circulating(Step(s, Pass(i)))
    ensures Pass(i) == NextAction(s) && Advanced(s, Step(s, Pass(i)))
  {
    PassInTurn(s, i);
  }

  lemma ReceiveIsSilent(s: Ring, i: nat)
    requires Circulating(s) && Enabled(s, Receive(i))
    ensures Step(s, Receive(i)).log == s.log
  {
    assert FrameInTurn(s.log, s.nodes[i].cursor, |s.nodes|);
  }

  lemma OtherActionProgress(s: Ring, action: Action)
    requires Circulating(s) && Enabled(s, action) && action != Timeout(0) && action != NextAction(s)
    requires Circulating(Step(s, action))
    ensures Undisturbed(s, Step(s, action))
  {
    match action
    case Boot =>
    case Receive(i) => ReceiveIsSilent(s, i); SameTurn(s, Step(s, action));
    case Drain(i) =>
    case Pass(i) =>
    case Timeout(i) => assert s.nodes[i := s.nodes[i]] == s.nodes && s.log + [] == s.log;
    case Lag(i) => NoLag(s, i);
    case Enqueue(i, item) => assert Step(s, action).log == s.log;
  }

  /** No other action disturbs the one that moves the token, and that one makes progress. */
  lemma StepProgress(s: Ring, action: Action)
    requires Circulating(s) && Enabled(s, action) && action != Timeout(0)
    ensures Circulating(Step(s, action))
    ensures if action == NextAction(s) then Advanced(s, Step(s, action)) else Undisturbed(s, Step(s, action))
  {
    StepOrderly(s, action);
    if action != NextAction(s) {
      OtherActionProgress(s, action);
    } else if action.Receive? {
      ReceiveTurn(s);
    } else if action.Drain? {
      DrainProgress(s, action.i);
    } else {
      PassProgress(s, action.i);
    }
  }

  // ---- Every queue is served -------------------------------------------------------

  /** A hold during which the queue was not looked at yet. */
  function Unspent(node: Node): nat {
    if Holds(node) && !node.drained then 1 else 0
  }

  /** With nothing new queued, every completed hold has sent a frame, unless the queue ran empty. */
  predicate QueueServed(before: Node, after: Node) {
    after.pending == []
    || |after.pending| + after.received - Unspent(after) == |before.pending| + before.received - Unspent(before)
  }

  predicate QueuesServed(s: Ring, t: Ring) {
    && |t.nodes| == |s.nodes| && t.submitted == s.submitted
    && forall i :: 0 <= i < |s.nodes| ==> QueueServed(s.nodes[i], t.nodes[i])
  }

  lemma StepServesQueues(s: Ring, u: Ring, action: Action)
    requires QueuesServed(s, u) && ValidSize(u) && Enabled(u, action) && !action.Enqueue?
    ensures QueuesServed(s, Step(u, action))
  {
    var t := Step(u, action);
    forall i | 0 <= i < |s.nodes| ensures QueueServed(s.nodes[i], t.nodes[i]) {
      assert QueueServed(s.nodes[i], u.nodes[i]);
    }
  }

  /** From any state of such a ring there is a continuation without timeouts that reaches a given
      number of received tokens, serving the queues on the way. */
  lemma {:induction false} Drive(s: Ring, prefix: seq<Action>, u: Ring, goal: nat)
      returns (actions: seq<Action>, t: Ring)
    requires ValidSize(s) && Run(s, prefix) == Some(u) && Circulating(u) && TokensReceived(u) <= goal
    requires QueuesServed(s, u)
    requires forall k :: 0 <= k < |prefix| ==> !prefix[k].Timeout? && !prefix[k].Enqueue?
    ensures Run(s, actions) == Some(t) && Circulating(t) && TokensReceived(t) == goal
    ensures QueuesServed(s, t)
    ensures forall k :: 0 <= k < |actions| ==> !actions[k].Timeout? && !actions[k].Enqueue?
    decreases goal - TokensReceived(u), if Holds(u.nodes[Turn(u)]) then 1 else 0, Distance(u)
  {
    if TokensReceived(u) == goal {
      actions, t := prefix, u;
    } else {
      var action := NextAction(u);
      NextEnabled(u);
      StepProgress(u, action);
      StepServesQueues(s, u, action);
      assert (prefix + [action])[..|prefix|] == prefix;
      actions, t := Drive(s, prefix + [action], Step(u, action), goal);
    }
  }

  lemma {:induction false} ShareAfterRounds(K: nat, i: nat, n: nat, rounds: nat)
    requires i < n
    ensures Share(K + rounds * n, i, n) == Share(K, i, n) + rounds
  {
    hide Share;
    MulNext(rounds, n);
    if rounds > 0 {
      ShareAfterRounds(K, i, n, rounds - 1);
      ShareAfterRound(K + (rounds - 1) * n, i, n);
    }
  }

  lemma MulNext(k: nat, n: nat)
    ensures if k == 0 then k * n == 0 else 0 <= (k - 1) * n == k * n - n
  {
  }

  lemma ShareAfterRound(K: nat, i: nat, n: nat)
    requires i < n
    ensures Share(K + n, i, n) == Share(K, i, n) + 1
  {
    DivPlusDivisor(K + n - 1 - i, n);
  }

  lemma ReceivedAfterRounds(s: Ring, t: Ring, rounds: nat)
    requires Circulating(s) && Circulating(t) && |t.nodes| == |s.nodes|
    requires TokensReceived(t) == TokensReceived(s) + rounds * |s.nodes|
    ensures forall i :: 0 <= i < |s.nodes| ==> t.nodes[i].received == s.nodes[i].received + rounds
  {
    forall i | 0 <= i < |s.nodes| ensures t.nodes[i].received == s.nodes[i].received + rounds {
      ShareAfterRounds(TokensReceived(s), i, |s.nodes|, rounds);
    }
  }

  /** The ring is never stuck: from every state reached without a restart, a continuation gives every
      master the token exactly `rounds` times more. */
  lemma EveryMasterServed(n: nat, past: seq<Action>, s: Ring, rounds: nat) returns (actions: seq<Action>, t: Ring)
    requires 0 < n <= 255 && Run(Joined(n), past) == Some(s) && s.booted && s.restarts == 0
    ensures ValidSize(s) && Run(s, actions) == Some(t)
    ensures forall k :: 0 <= k < |actions| ==> !actions[k].Timeout? && !actions[k].Enqueue?
    ensures |s.nodes| == n && QueuesServed(s, t)
    ensures forall i :: 0 <= i < n ==> t.nodes[i].received == s.nodes[i].received + rounds
    ensures Circulating(t)
  {
    RunOrderly(n, past, s);
    MulMonotone(0, rounds, n);
    var goal := TokensReceived(s) + rounds * n;
    actions, t := Drive(s, [], s, goal);
    ReceivedAfterRounds(s, t, rounds);
  }

  lemma {:induction false} QueuesBounded(n: nat, actions: seq<Action>, s: Ring)
    requires 0 < n <= 255 && Run(Joined(n), actions) == Some(s)
    ensures forall i :: 0 <= i < |s.nodes| ==> |s.nodes[i].pending| <= OUTBOUND_CAPACITY
    decreases |actions|
  {
    hide Step, Enabled;
    if actions != [] {
      var last := |actions| - 1;
      var u := Run(Joined(n), actions[..last]).value;
      QueuesBounded(n, actions[..last], u);
      StepKeepsBounds(u, actions[last]);
    }
  }

  lemma StepKeepsBounds(s: Ring, action: Action)
    requires ValidSize(s) && Enabled(s, action)
    requires forall i :: 0 <= i < |s.nodes| ==> |s.nodes[i].pending| <= OUTBOUND_CAPACITY
    ensures forall i :: 0 <= i < |Step(s, action).nodes| ==> |Step(s, action).nodes[i].pending| <= OUTBOUND_CAPACITY
  {
  }

  lemma {:induction false} RunAppend(s: Ring, first: seq<Action>, u: Ring, second: seq<Action>)
    requires ValidSize(s) && Run(s, first) == Some(u) && ValidSize(u) && Run(u, second).Some?
    ensures Run(s, first + second) == Run(u, second)
    decreases |second|
  {
    if second == [] {
      assert first + second == first;
    } else {
      var last := |second| - 1;
      RunAppend(s, first, u, second[..last]);
      assert (first + second)[..|first + second| - 1] == first + second[..last];
    }
  }

  /** Every frame ever queued can still reach the bus: some continuation without timeouts empties all
      queues, and then each master has sent exactly what was queued there, in order. */
  lemma EverythingIsSent(n: nat, past: seq<Action>, s: Ring) returns (actions: seq<Action>, t: Ring)
    requires 0 < n <= 255 && Run(Joined(n), past) == Some(s) && s.booted && s.restarts == 0
    ensures ValidSize(s) && Run(s, actions) == Some(t)
    ensures forall k :: 0 <= k < |actions| ==> !actions[k].Timeout? && !actions[k].Enqueue?
    ensures |s.submitted| == n && forall i :: 0 <= i < n ==> DataFrom(t.log, i) == s.submitted[i]
  {
    actions, t := EveryMasterServed(n, past, s, OUTBOUND_CAPACITY + 2);
    QueuesBounded(n, past, s);
    RunAppend(Joined(n), past, s, actions);
    EveryRun(n, past + actions, t);
    forall i | 0 <= i < n ensures DataFrom(t.log, i) == s.submitted[i] {
      assert QueueServed(s.nodes[i], t.nodes[i]);
      assert InOrder(t, i);
    }
  }
}
