/** What every run of the ring keeps, timeouts and lagging receivers included:
    tokens are conserved, and each master's frames reach the bus once and in order. */
module TokenRingAllRuns {
  import opened Machine
  import opened MstpFrames
  import opened TokenRing

  // ---- Counting tokens --------------------------------------------------------

  /** Tokens node `i` has still to read or is holding. */
  function Weight(node: Node, log: seq<Frame>, i: nat): nat {
    TokensFrom(log, node.cursor, i) + if Holds(node) then 1 else 0
  }

  function Total(nodes: seq<Node>, log: seq<Frame>, n: nat): nat
    requires n <= |nodes|
  {
    if n == 0 then 0 else Total(nodes, log, n - 1) + Weight(nodes[n - 1], log, n - 1)
  }

  predicate CursorsInLog(s: Ring) {
    forall i :: 0 <= i < |s.nodes| ==> s.nodes[i].cursor <= |s.log|
  }

  predicate TokensStayInRing(s: Ring) {
    forall k :: 0 <= k < |s.log| && IsToken(s.log[k]) ==> s.log[k].destination < |s.nodes|
  }

  /** Tokens in flight or held, plus tokens lost to lag, are the boot token and the restarts. */
  predicate Conserved(s: Ring) {
    Total(s.nodes, s.log, |s.nodes|) + s.skipped == (if s.booted then 1 else 0) + s.restarts
  }

  lemma TokensFromAppend(log: seq<Frame>, f: Frame, from: nat, d: nat)
    requires from <= |log|
    ensures TokensFrom(log + [f], from, d) == TokensFrom(log, from, d) + if IsTokenTo(f, d) then 1 else 0
  {
    assert (log + [f])[..|log|] == log;
  }

  lemma {:induction false} TokensFromSplit(log: seq<Frame>, a: nat, b: nat, d: nat)
    requires a <= b <= |log|
    ensures TokensFrom(log, a, d) == TokensFrom(log[..b], a, d) + TokensFrom(log, b, d)
  {
    if b == |log| {
      assert log[..b] == log;
    } else {
      TokensFromSplit(log[..|log| - 1], a, b, d);
      assert log[..|log| - 1][..b] == log[..b];
    }
  }

  lemma TokensFromNext(log: seq<Frame>, a: nat, d: nat)
    requires a < |log|
    ensures TokensFrom(log, a, d) == TokensFrom(log, a + 1, d) + if IsTokenTo(log[a], d) then 1 else 0
  {
    TokensFromSplit(log, a, a + 1, d);
    assert log[..a + 1] == log[..a] + [log[a]];
    TokensFromAppend(log[..a], log[a], a, d);
  }

  lemma {:induction false} TotalChange(nodes: seq<Node>, log: seq<Frame>, i: nat, node: Node, n: nat)
    requires i < |nodes| && n <= |nodes|
    ensures Total(nodes[i := node], log, n)
         == Total(nodes, log, n) + if i < n then Weight(node, log, i) - Weight(nodes[i], log, i) else 0
  {
    if n > 0 {
      TotalChange(nodes, log, i, node, n - 1);
    }
  }

  lemma {:induction false} TotalAppend(nodes: seq<Node>, log: seq<Frame>, f: Frame, n: nat)
    requires n <= |nodes|
    requires forall i :: 0 <= i < |nodes| ==> nodes[i].cursor <= |log|
    ensures Total(nodes, log + [f], n)
         == Total(nodes, log, n) + if IsToken(f) && f.destination < n then 1 else 0
  {
    if n > 0 {
      TotalAppend(nodes, log, f, n - 1);
      TokensFromAppend(log, f, nodes[n - 1].cursor, n - 1);
    }
  }

  // ---- First in, first out ------------------------------------------------------

  /** What one frame carries of the data `source` has sent. */
  function Carried(f: Frame, source: nat): seq<Outbound> {
    if f.frameType.BacnetDataNotExpectingReply? && f.source == source then [Outbound(f.destination, f.data)] else []
  }

  /** The data `source` has put on the bus, oldest first. */
  function DataFrom(log: seq<Frame>, source: nat): seq<Outbound> {
    if log == [] then [] else DataFrom(log[..|log| - 1], source) + Carried(log[|log| - 1], source)
  }

  /** What node `i` has sent, followed by what it still has to send, is what callers queued there. */
  predicate InOrder(s: Ring, i: nat)
    requires i < |s.nodes| && i < |s.submitted|
  {
    DataFrom(s.log, i) + s.nodes[i].pending == s.submitted[i]
  }

  lemma DataFromAppend(log: seq<Frame>, f: Frame, source: nat)
    ensures DataFrom(log + [f], source) == DataFrom(log, source) + Carried(f, source)
  {
    assert (log + [f])[..|log|] == log;
  }

  // ---- Every step, every run ------------------------------------------------------

  predicate Invariant(s: Ring) {
    && Accounted(s)
    && forall i :: 0 <= i < |s.nodes| ==> InOrder(s, i)
  }

  lemma JoinedInvariant(n: nat)
    requires 0 < n <= 255
    ensures Invariant(Joined(n))
  {
    NoTokensYet(n, n);
  }

  lemma {:induction false} NoTokensYet(size: nat, n: nat)
    requires n <= size
    ensures Total(Joined(size).nodes, [], n) == 0
  {
    if n > 0 {
      NoTokensYet(size, n - 1);
    }
  }

  lemma SendKeepsConserved(s: Ring, i: nat, e: Effect)
    requires ValidSize(s) && CursorsInLog(s) && i < |s.nodes|
    requires e.node.cursor <= |s.log| && |e.sent| <= 1
    ensures var t := Apply(s, i, e);
      Total(t.nodes, t.log, |t.nodes|)
      == Total(s.nodes, s.log, |s.nodes|) + Weight(e.node, s.log, i) - Weight(s.nodes[i], s.log, i)
       + if |e.sent| == 1 && IsToken(e.sent[0]) && e.sent[0].destination < |s.nodes| then 1 else 0
  {
    var n := |s.nodes|;
    var nodes := s.nodes[i := e.node];
    TotalChange(s.nodes, s.log, i, e.node, n);
    if |e.sent| == 1 {
      TotalAppend(nodes, s.log, e.sent[0], n);
      assert e.sent == [e.sent[0]];
    } else {
      assert s.log + e.sent == s.log;
    }
  }

  /** Tokens, cursors and destinations are in order. */
  predicate Accounted(s: Ring) {
    ValidSize(s) && CursorsInLog(s) && TokensStayInRing(s) && Conserved(s)
  }

  lemma ReceiveConserves(s: Ring, i: nat)
    requires Accounted(s) && Enabled(s, Receive(i))
    ensures Accounted(Step(s, Receive(i)))
  {
    var node := s.nodes[i];
    TokensFromNext(s.log, node.cursor, i);
    SendKeepsConserved(s, i, ReceiveFrame(i, node, s.log[node.cursor]));
  }

  lemma LagConserves(s: Ring, i: nat)
    requires Accounted(s) && Enabled(s, Lag(i))
    ensures Accounted(Step(s, Lag(i)))
  {
    var node := LagSkip(s.nodes[i], |s.log|);
    TokensFromSplit(s.log, s.nodes[i].cursor, node.cursor, i);
    TotalChange(s.nodes, s.log, i, node, |s.nodes|);
  }

  lemma PassConserves(s: Ring, i: nat)
    requires Accounted(s) && Enabled(s, Pass(i))
    ensures Accounted(Step(s, Pass(i)))
  {
    hide Total, TokensFrom, NextStation;
    NextInRing(i, |s.nodes|);
    SendKeepsConserved(s, i, PassToken(i, |s.nodes| - 1, s.nodes[i]));
  }

  lemma NextInRing(i: nat, n: nat)
    requires i < n <= 255
    ensures NextStation(i, n - 1) < n
  {
  }

  lemma StepConserves(s: Ring, action: Action)
    requires Accounted(s) && Enabled(s, action)
    ensures Accounted(Step(s, action))
  {
    match action
    case Boot => TotalAppend(s.nodes, s.log, TokenFrame(0, 0), |s.nodes|);
    case Receive(i) => ReceiveConserves(s, i);
    case Drain(i) => SendKeepsConserved(s, i, DrainPending(i, s.nodes[i]));
    case Pass(i) => PassConserves(s, i);
    case Timeout(i) => SendKeepsConserved(s, i, RingTimeout(i, s.nodes[i]));
    case Lag(i) => LagConserves(s, i);
    case Enqueue(i, item) =>
      TotalChange(s.nodes, s.log, i, s.nodes[i].(pending := s.nodes[i].pending + [item]), |s.nodes|);
  }

  /** What leaves a queue is what goes on the bus. */
  lemma SendKeepsOrder(log: seq<Frame>, f: Frame, before: seq<Outbound>, after: seq<Outbound>, j: nat)
    requires Carried(f, j) + after == before
    ensures DataFrom(log + [f], j) + after == DataFrom(log, j) + before
  {
    hide DataFrom, Carried;
    DataFromAppend(log, f, j);
    assert DataFrom(log, j) + Carried(f, j) + after == DataFrom(log, j) + (Carried(f, j) + after);
  }

  lemma ActKeepsOrder(s: Ring, i: nat, e: Effect, j: nat)
    requires ValidSize(s) && i < |s.nodes| && j < |s.nodes| && InOrder(s, j) && |e.sent| <= 1
    requires |e.sent| == 0 ==> e.node.pending == s.nodes[i].pending
    requires |e.sent| == 1 ==> Carried(e.sent[0], i) + e.node.pending == s.nodes[i].pending
    requires |e.sent| == 1 && i != j ==> Carried(e.sent[0], j) == []
    ensures InOrder(Apply(s, i, e), j)
  {
    if |e.sent| == 1 {
      assert e.sent == [e.sent[0]];
      SendKeepsOrder(s.log, e.sent[0], s.nodes[j].pending, Apply(s, i, e).nodes[j].pending, j);
    } else {
      assert s.log + e.sent == s.log;
    }
  }

  lemma StepKeepsOrder(s: Ring, action: Action, j: nat)
    requires ValidSize(s) && Enabled(s, action) && j < |s.nodes| && InOrder(s, j)
    ensures InOrder(Step(s, action), j)
  {
    match action
    case Boot => DataFromAppend(s.log, TokenFrame(0, 0), j);
    case Receive(i) => ActKeepsOrder(s, i, ReceiveFrame(i, s.nodes[i], s.log[s.nodes[i].cursor]), j);
    case Drain(i) => ActKeepsOrder(s, i, DrainPending(i, s.nodes[i]), j);
    case Pass(i) => ActKeepsOrder(s, i, PassToken(i, |s.nodes| - 1, s.nodes[i]), j);
    case Timeout(i) => ActKeepsOrder(s, i, RingTimeout(i, s.nodes[i]), j);
    case Lag(i) =>
    case Enqueue(i, item) =>
      assert InOrder(s, j);
  }

  lemma StepKeepsInvariant(s: Ring, action: Action)
    requires Invariant(s) && Enabled(s, action)
    ensures Invariant(Step(s, action))
  {
    StepConserves(s, action);
    forall j | 0 <= j < |s.nodes| ensures InOrder(Step(s, action), j) {
      StepKeepsOrder(s, action, j);
    }
  }

  lemma StepKeepsSize(s: Ring, action: Action)
    requires ValidSize(s) && Enabled(s, action)
    ensures |Step(s, action).nodes| == |s.nodes|
  {
  }

  lemma {:induction false} RunKeepsInvariant(n: nat, actions: seq<Action>, s: Ring)
    requires 0 < n <= 255 && Run(Joined(n), actions) == Some(s)
    ensures Invariant(s) && |s.nodes| == n
    decreases |actions|
  {
    if actions == [] {
      JoinedInvariant(n);
    } else {
      var last := |actions| - 1;
      var t := Run(Joined(n), actions[..last]).value;
      RunKeepsInvariant(n, actions[..last], t);
      StepKeepsInvariant(t, actions[last]);
      StepKeepsSize(t, actions[last]);
    }
  }

  /** The main result on all runs. */
  lemma EveryRun(n: nat, actions: seq<Action>, s: Ring)
    requires 0 < n <= 255 && Run(Joined(n), actions) == Some(s)
    ensures |s.nodes| == n == |s.submitted|
    ensures Conserved(s)
    ensures forall i :: 0 <= i < n ==> InOrder(s, i)
  {
    RunKeepsInvariant(n, actions, s);
  }
}
