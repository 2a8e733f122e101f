/** Progress in every schedule: however the steps of the masters interleave, the token gets round as soon as it
    is allowed to move, and takes the queued frames with it. */
module TokenRingLiveness {
  import opened Machine
  import opened Modular
  import opened TokenRing
  import opened TokenRingAllRuns
  import opened TokenRingInTurn
  import opened TokenRingProgress

  /** The most moves of the token between two of its receipts: drain, pass, and reading all that the bus retains. */
  const LAP := 2 + BUS_CHANNEL_CAPACITY

  predicate Moving(s: Ring, action: Action) {
    Circulating(s) && action == NextAction(s)
  }

  /** How often a run takes the one action that moves the token. */
  function Moves(s: Ring, actions: seq<Action>): nat
    requires ValidSize(s)
    decreases |actions|
  {
    if actions == [] then 0
    else
      var n := |actions| - 1;
      Moves(s, actions[..n])
      + match Run(s, actions[..n])
        case Some(u) => if Moving(u, actions[n]) then 1 else 0
        case None => 0
  }

  predicate NoRestart(actions: seq<Action>) {
    forall k :: 0 <= k < |actions| ==> actions[k] != Timeout(0)
  }

  /** Moves still needed, at most, before the token is received again. */
  function Todo(s: Ring): nat
    requires Circulating(s)
  {
    Distance(s) + 1 + if Holds(s.nodes[Turn(s)]) then BUS_CHANNEL_CAPACITY else 0
  }

  lemma TodoBounded(s: Ring)
    requires Circulating(s)
    ensures 1 <= Todo(s) <= LAP
    ensures !Holds(s.nodes[Turn(s)]) ==> Todo(s) <= BUS_CHANNEL_CAPACITY
  {
    NoLag(s, Turn(s));
  }

  lemma NextTells(s: Ring)
    requires Circulating(s)
    ensures NextAction(s).Receive? <==> !Holds(s.nodes[Turn(s)])
  {
    hide Circulating;
  }

  lemma UndisturbedTodo(s: Ring, t: Ring)
    requires Circulating(s) && Circulating(t) && Undisturbed(s, t)
    ensures Todo(t) == Todo(s) && TokensReceived(t) == TokensReceived(s)
  {
    hide Circulating, TokensReceived, Distance, NextAction, Turn;
    NextTells(s);
    NextTells(t);
  }

  lemma AdvancedTodo(s: Ring, t: Ring)
    requires Circulating(s) && Circulating(t) && Advanced(s, t)
    requires !NextAction(s).Pass? && !(NextAction(s).Receive? && Distance(s) == 0) ==>
      (Holds(t.nodes[Turn(t)]) <==> Holds(s.nodes[Turn(s)]))
    ensures 1 + Todo(t) <= LAP * (TokensReceived(t) - TokensReceived(s)) + Todo(s)
    ensures TokensReceived(s) <= TokensReceived(t)
  {
    hide Circulating, TokensReceived, Distance, NextAction, Turn;
    TodoBounded(t);
    NextTells(s);
  }

  /** A move brings the next receipt closer by one, or is the receipt. */
  lemma TodoStep(s: Ring, action: Action)
    requires Circulating(s) && Enabled(s, action) && action != Timeout(0)
    ensures var t := Step(s, action);
      Circulating(t)
      && (if action == NextAction(s) then 1 else 0) + Todo(t) <= LAP * (TokensReceived(t) - TokensReceived(s)) + Todo(s)
      && TokensReceived(s) <= TokensReceived(t)
  {
    hide Step, Circulating, TokensReceived, Distance, NextAction, Turn, Enabled, Todo, Undisturbed;
    CirculatingValid(s);
    StepProgress(s, action);
    var t := Step(s, action);
    if action != NextAction(s) {
      UndisturbedTodo(s, t);
    } else {
      if !action.Pass? && !(action.Receive? && Distance(s) == 0) {
        SameHolder(s, action);
      }
      AdvancedTodo(s, t);
    }
  }

  /** While the token is read for or the queue is looked at, the holder stays. */
  lemma SameHolder(s: Ring, action: Action)
    requires Circulating(s) && Enabled(s, action) && action == NextAction(s) && Circulating(Step(s, action))
    requires !action.Pass? && !(action.Receive? && Distance(s) == 0)
    requires TokensReceived(Step(s, action)) == TokensReceived(s)
    requires TokensSent(Step(s, action).log) == TokensSent(s.log)
    ensures Holds(Step(s, action).nodes[Turn(Step(s, action))]) <==> Holds(s.nodes[Turn(s)])
  {
    hide Circulating, Step, TokensSent;
  }

  lemma CirculatingValid(s: Ring)
    ensures Circulating(s) ==> ValidSize(s)
  {
  }

  /** In every run without restarts the moves are paid for by receipts. */
  lemma {:induction false} MovesPaid(s: Ring, actions: seq<Action>, t: Ring)
    requires Circulating(s) && Run(s, actions) == Some(t) && NoRestart(actions)
    ensures Circulating(t) && |t.nodes| == |s.nodes| && TokensReceived(s) <= TokensReceived(t)
    ensures Moves(s, actions) + Todo(t) <= LAP * (TokensReceived(t) - TokensReceived(s)) + Todo(s)
    decreases |actions|
  {
    CirculatingValid(s);
    hide Circulating, Step, Todo, TokensReceived, NextAction, Enabled;
    if actions != [] {
      var n := |actions| - 1;
      var u := Run(s, actions[..n]).value;
      MovesPaid(s, actions[..n], u);
      TodoStep(u, actions[n]);
      StepKeepsSize(u, actions[n]);
    }
  }

  lemma ShareGrows(a: nat, b: nat, i: nat, n: nat)
    requires i < n && a <= b
    ensures Share(a, i, n) <= Share(b, i, n)
  {
    DivMonotone(a + n - 1 - i, b + n - 1 - i, n);
  }

  lemma ReceivedIsShare(s: Ring, i: nat)
    requires Circulating(s) && i < |s.nodes|
    ensures s.nodes[i].received == Share(TokensReceived(s), i, |s.nodes|)
  {
    hide Share, TokensReceived;
  }

  /** Moves that suffice for so many rounds of `n` masters, in any schedule. */
  function MovesFor(rounds: nat, n: nat): nat {
    LAP * (rounds * n)
  }

  lemma Laps(moves: nat, rounds: nat, n: nat, receipts: nat, todo: nat)
    requires MovesFor(rounds, n) <= moves < LAP * receipts + todo && todo <= LAP
    ensures rounds * n <= receipts
  {
    var total := rounds * n;
    assert LAP * total < LAP * receipts + LAP;
  }

  lemma MasterServed(s: Ring, t: Ring, i: nat, rounds: nat)
    requires Circulating(s) && Circulating(t) && i < |s.nodes| == |t.nodes|
    requires TokensReceived(t) - TokensReceived(s) >= rounds * |s.nodes|
    ensures t.nodes[i].received >= s.nodes[i].received + rounds
  {
    hide Share;
    var n := |s.nodes|;
    ReceivedIsShare(s, i);
    ReceivedIsShare(t, i);
    MulMonotone(0, rounds, n);
    ShareAfterRounds(TokensReceived(s), i, n, rounds);
    ShareGrows(TokensReceived(s) + rounds * n, TokensReceived(t), i, n);
  }

  lemma BootedCirculates(s: Ring)
    requires Orderly(s) && s.booted
    ensures Circulating(s)
  {
    hide Circulating;
  }

  lemma CirculatingSent(s: Ring)
    requires Circulating(s)
    ensures |s.nodes| > 0 && TokensSent(s.log) > 0
  {
    hide TokensSent;
  }

  lemma ReceiptsPaid(s: Ring, actions: seq<Action>, t: Ring, rounds: nat)
    requires Circulating(s) && Run(s, actions) == Some(t) && NoRestart(actions)
    requires Moves(s, actions) >= MovesFor(rounds, |s.nodes|)
    ensures Circulating(t) && |t.nodes| == |s.nodes|
    ensures TokensReceived(t) - TokensReceived(s) >= rounds * |s.nodes|
  {
    hide Circulating, Moves, MovesFor, Todo, TokensReceived, Run, NoRestart, TokensSent;
    MovesPaid(s, actions, t);
    TodoBounded(s);
    TodoBounded(t);
    CirculatingValid(s);
    CirculatingSent(s);
    CirculatingSent(t);
    Laps(Moves(s, actions), rounds, |s.nodes|, TokensReceived(t) - TokensReceived(s), Todo(s));
  }

  /** The main result on progress: in every continuation of every run without restarts, whatever the interleaving,
      as many moves of the token as `rounds` rounds can need bring every master the token at least `rounds` times. */
  lemma EveryScheduleServes(n: nat, past: seq<Action>, s: Ring, actions: seq<Action>, t: Ring, rounds: nat)
    requires 0 < n <= 255 && Run(Joined(n), past) == Some(s) && s.booted && s.restarts == 0
    requires ValidSize(s) && Run(s, actions) == Some(t) && NoRestart(actions)
    requires Moves(s, actions) >= MovesFor(rounds, n)
    ensures |t.nodes| == |s.nodes| == n
    ensures forall i :: 0 <= i < n ==> t.nodes[i].received >= s.nodes[i].received + rounds
  {
    hide Circulating, Moves, MovesFor, Run, NoRestart, Unbooted;
    RunOrderly(n, past, s);
    BootedCirculates(s);
    ReceiptsPaid(s, actions, t, rounds);
    forall i | 0 <= i < n ensures t.nodes[i].received >= s.nodes[i].received + rounds {
      MasterServed(s, t, i, rounds);
    }
  }

  // ---- Every queued frame ------------------------------------------------------------------------

  /** How many frames of a master have left its queue. */
  function Sent(s: Ring, i: nat): int
    requires i < |s.nodes| && i < |s.submitted|
  {
    |s.submitted[i]| - |s.nodes[i].pending|
  }

  /** Since the state `s`: the frames queued there are sent, or every completed hold has sent one. */
  predicate Serving(s: Ring, u: Ring, i: nat)
    requires i < |s.nodes| && i < |s.submitted| && i < |u.nodes| && i < |u.submitted|
  {
    s.submitted[i] <= u.submitted[i]
    && (Sent(u, i) >= |s.submitted[i]|
      || Sent(u, i) - u.nodes[i].received + Unspent(u.nodes[i])
        >= Sent(s, i) - s.nodes[i].received + Unspent(s.nodes[i]))
  }

  lemma StepServes(s: Ring, u: Ring, action: Action, i: nat)
    requires i < |s.nodes| && i < |s.submitted| && i < |u.nodes| && ValidSize(u) && Enabled(u, action)
    requires Serving(s, u, i)
    ensures ValidSize(Step(u, action)) && |Step(u, action).nodes| == |u.nodes| && Serving(s, Step(u, action), i)
  {
  }

  lemma {:induction false} RunServes(s: Ring, actions: seq<Action>, t: Ring, i: nat)
    requires ValidSize(s) && i < |s.nodes| && Run(s, actions) == Some(t)
    ensures ValidSize(t) && |t.nodes| == |s.nodes| && Serving(s, t, i)
    decreases |actions|
  {
    hide Serving, Step, Enabled;
    if actions == [] {
      assert Serving(s, s, i) by { ServingAtOnce(s, i); }
    } else {
      var n := |actions| - 1;
      var u := Run(s, actions[..n]).value;
      RunServes(s, actions[..n], u, i);
      StepServes(s, u, actions[n], i);
    }
  }

  lemma ServingAtOnce(s: Ring, i: nat)
    requires i < |s.nodes| && i < |s.submitted|
    ensures Serving(s, s, i)
  {
  }

  /** Rounds that empty a full queue, however much is queued behind it meanwhile. */
  const CLEARING := OUTBOUND_CAPACITY + 1

  lemma AllOut(s: Ring, t: Ring, i: nat)
    requires i < |s.nodes| && i < |s.submitted| && i < |t.nodes| && i < |t.submitted|
    requires Serving(s, t, i) && |s.nodes[i].pending| <= OUTBOUND_CAPACITY
    requires t.nodes[i].received >= s.nodes[i].received + CLEARING
    ensures s.submitted[i] <= t.submitted[i] && Sent(t, i) >= |s.submitted[i]|
  {
  }

  lemma PrefixSent<T>(sent: seq<T>, pending: seq<T>, submitted: seq<T>, older: seq<T>)
    requires sent + pending == submitted && older <= submitted && |sent| >= |older|
    ensures older <= sent
  {
    assert sent == submitted[..|sent|];
  }

  /** The main result on delivery: in every such continuation, with frames queued at any time, the moves of one
      round per place in a queue and one more bring everything queued before onto the bus, in order. */
  lemma EveryScheduleDelivers(n: nat, past: seq<Action>, s: Ring, actions: seq<Action>, t: Ring)
    requires 0 < n <= 255 && Run(Joined(n), past) == Some(s) && s.booted && s.restarts == 0
    requires ValidSize(s) && Run(s, actions) == Some(t) && NoRestart(actions)
    requires Moves(s, actions) >= MovesFor(CLEARING, n)
    ensures |s.submitted| == n && forall i :: 0 <= i < n ==> s.submitted[i] <= DataFrom(t.log, i)
  {
    EveryScheduleServes(n, past, s, actions, t, CLEARING);
    QueuesBounded(n, past, s);
    RunAppend(Joined(n), past, s, actions);
    EveryRun(n, past + actions, t);
    hide Run, Moves, Serving, NoRestart;
    forall i | 0 <= i < n ensures s.submitted[i] <= DataFrom(t.log, i) {
      RunServes(s, actions, t, i);
      AllOut(s, t, i);
      assert InOrder(t, i);
      PrefixSent(DataFrom(t.log, i), t.nodes[i].pending, t.submitted[i], s.submitted[i]);
    }
  }
}
