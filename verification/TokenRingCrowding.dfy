/** Too many tokens: a run in which a receiver lags, for every ring and number of restarts beyond the bound. */
module TokenRingCrowding {
  import opened Machine
  import opened MstpFrames
  import opened TokenRing
  import opened TokenRingAllRuns
  import opened TokenRingLag

  // ---- The start: all tokens wait for master 0 ----------------------------------------------

  function Crowd(k: nat): seq<Frame> {
    seq(k, _ => TokenFrame(0, 0))
  }

  lemma {:induction false} CrowdTokens(k: nat, d: nat)
    ensures TokensFrom(Crowd(k), 0, d) == if d == 0 then k else 0
    decreases k
  {
    if k > 0 {
      CrowdTokens(k - 1, d);
      assert Crowd(k)[..k - 1] == Crowd(k - 1);
    }
  }

  lemma RunNext(n: nat, past: seq<Action>, s: Ring, action: Action)
    requires 0 < n <= 255 && Run(Joined(n), past) == Some(s) && ValidSize(s) && Enabled(s, action)
    ensures Run(Joined(n), past + [action]) == Some(Step(s, action))
  {
    hide Enabled, Step;
    assert (past + [action])[..|past|] == past;
  }

  /** Boot, and restart before anybody reads. */
  lemma {:induction false} CrowdedStart(n: nat, restarts: nat) returns (past: seq<Action>, s: Ring)
    requires 0 < n <= 255
    ensures Run(Joined(n), past) == Some(s) && s.booted && s.restarts == restarts
    ensures s.nodes == Joined(n).nodes && s.log == Crowd(restarts + 1) && ValidSize(s)
    decreases restarts
  {
    if restarts == 0 {
      RunNext(n, [], Joined(n), Boot);
      past, s := [] + [Boot], Step(Joined(n), Boot);
      assert Run(Joined(n), []) == Some(Joined(n));
      assert s.log == Crowd(1);
    } else {
      var before, u := CrowdedStart(n, restarts - 1);
      RunNext(n, before, u, Timeout(0));
      past, s := before + [Timeout(0)], Step(u, Timeout(0));
      assert u.nodes[0 := u.nodes[0]] == u.nodes;
      assert s.log == Crowd(restarts + 1);
    }
  }

  lemma {:induction false} CrowdedLead(n: nat, k: nat, m: nat)
    requires 0 < n <= 255 && m <= n
    ensures LeadSum(Joined(n).nodes, Crowd(k), 0, k, m) == if m == 0 then 0 else Times(2 * n, k)
    decreases m
  {
    hide TokensFrom, Times, Gap, Crowd;
    if m > 0 {
      CrowdedLead(n, k, m - 1);
      CrowdTokens(k, m - 1);
      CrowdLength(k);
      assert Crowd(k)[..k] == Crowd(k);
      NoTimes(2 * Gap(m - 1, 0, n));
    }
  }

  lemma CrowdLength(k: nat)
    ensures |Crowd(k)| == k && NoPolls(Crowd(k))
  {
  }

  lemma NoTimes(v: nat)
    ensures Times(v, 0) == 0
  {
  }

  // ---- Driving the tokens on to master 0 ------------------------------------------------------------

  /** Master 0 has read at most the waiting tokens, and every frame that could have been sent was sent. */
  predicate Crowded(s: Ring, n: nat, tokens: nat) {
    && |s.nodes| == n && Accounted(s) && NoPolls(s.log) && s.booted
    && s.nodes[0].cursor <= tokens <= |s.log|
    && Lead(s, 0, tokens) == Times(2 * n, tokens)
  }

  function Unread(nodes: seq<Node>, length: nat, m: nat): nat
    requires m <= |nodes|
  {
    if m == 0 then 0
    else Unread(nodes, length, m - 1) + if nodes[m - 1].cursor <= length then length - nodes[m - 1].cursor else 0
  }

  lemma {:induction false} UnreadChange(nodes: seq<Node>, length: nat, k: nat, node: Node, m: nat)
    requires k < |nodes| && m <= |nodes| && nodes[k].cursor < length && node.cursor == nodes[k].cursor + 1
    ensures Unread(nodes[k := node], length, m) == Unread(nodes, length, m) - if k < m then 1 else 0
    decreases m
  {
    if m > 0 {
      UnreadChange(nodes, length, k, node, m - 1);
    }
  }

  /** Somebody has something left to send. */
  lemma {:induction false} BusyNode(nodes: seq<Node>, log: seq<Frame>, q: nat, m: nat) returns (j: nat)
    requires 0 < |nodes| && m <= |nodes| && q <= |log| && LeadSum(nodes, log, 0, q, m) > 0
    ensures j < m && NodeLead(nodes[j], log, j, 0, q, |nodes|) > 0
    decreases m
  {
    hide NodeLead;
    if NodeLead(nodes[m - 1], log, m - 1, 0, q, |nodes|) > 0 {
      j := m - 1;
    } else {
      j := BusyNode(nodes, log, q, m - 1);
    }
  }

  lemma NothingUnread(log: seq<Frame>, from: nat, d: nat)
    requires |log| <= from
    ensures TokensFrom(log, from, d) == 0
  {
  }

  lemma BusyReads(node: Node, log: seq<Frame>, j: nat, q: nat, n: nat)
    requires j < n && q <= |log| && NodeLead(node, log, j, 0, q, n) > 0 && !Holds(node)
    ensures node.cursor < |log| && (j == 0 ==> node.cursor < q)
  {
    hide TokensFrom, Gap, Times;
    NoTimes(2 * n);
    NoTimes(2 * Gap(j, 0, n));
    if |log| <= node.cursor {
      NothingUnread(log, node.cursor, j);
      NothingUnread(log[..q], node.cursor, 0);
    } else if q <= node.cursor {
      NothingUnread(log[..q], node.cursor, 0);
    }
  }

  /** The frame that a master queues when it has nothing to send. */
  const FILLER: Outbound := Outbound(0, [])

  lemma CrowdedEnqueue(s: Ring, n: nat, tokens: nat, j: nat)
    requires Crowded(s, n, tokens) && Enabled(s, Enqueue(j, FILLER))
    ensures Crowded(Step(s, Enqueue(j, FILLER)), n, tokens)
  {
    StepConserves(s, Enqueue(j, FILLER));
    hide Lead, Times, Conserved, TokensStayInRing;
    LeadEnqueue(s, j, FILLER, 0, tokens);
  }

  /** A frame on the bus is a frame less to come. */
  lemma CrowdedSend(s: Ring, n: nat, tokens: nat, action: Action)
    requires Crowded(s, n, tokens) && Enabled(s, action)
    requires action.Pass? || (action.Drain? && s.nodes[action.i].pending != [])
    ensures var t := Step(s, action);
      Crowded(t, n, tokens) && |t.log| == |s.log| + 1
  {
    StepConserves(s, action);
    StepAppends(s, action);
    hide Lead, Times, Conserved, TokensStayInRing;
    match action
    case Pass(k) => LeadPass(s, k, 0, tokens);
    case Drain(k) => LeadDrain(s, k, 0, tokens);
  }

  lemma CrowdedReceive(s: Ring, n: nat, tokens: nat, j: nat)
    requires Crowded(s, n, tokens) && Enabled(s, Receive(j)) && (j == 0 ==> s.nodes[0].cursor < tokens)
    ensures var t := Step(s, Receive(j));
      Crowded(t, n, tokens) && t.log == s.log && Unread(t.nodes, |t.log|, n) < Unread(s.nodes, |s.log|, n)
  {
    StepConserves(s, Receive(j));
    StepAppends(s, Receive(j));
    hide Lead, Times, Conserved, TokensStayInRing;
    LeadReceive(s, j, 0, tokens);
    UnreadChange(s.nodes, |s.log|, j, ReceiveFrame(j, s.nodes[j], s.log[s.nodes[j].cursor]).node, n);
  }

  /** When nothing is left to come, everything lies in front of master 0. */
  lemma CrowdedEnd(s: Ring, n: nat, tokens: nat)
    requires Crowded(s, n, tokens) && n * tokens > 256
    requires LeadSum(s.nodes, s.log, 0, tokens, n) == 0
    ensures Enabled(s, Lag(0))
  {
    TwiceTimes(n, tokens);
    hide Times, TokensFrom, Conserved, TokensStayInRing;
    NobodyHolds(s.nodes, s.log, tokens, n);
  }

  lemma {:induction false} NobodyHolds(nodes: seq<Node>, log: seq<Frame>, q: nat, m: nat)
    requires 0 < |nodes| && m <= |nodes| && q <= |log| && LeadSum(nodes, log, 0, q, m) == 0
    ensures forall j :: 0 <= j < m ==> !Holds(nodes[j])
    decreases m
  {
    hide TokensFrom, Times, Gap;
    if m > 0 {
      NobodyHolds(nodes, log, q, m - 1);
      GapOf(m - 1, 0, |nodes|);
    }
  }

  lemma SumOfLead(s: Ring, n: nat, tokens: nat)
    requires Crowded(s, n, tokens)
    ensures LeadSum(s.nodes, s.log, 0, tokens, n) == Times(2 * n, tokens) - (|s.log| - tokens)
  {
    hide LeadSum, Times, Accounted;
  }

  lemma RestartsKept(s: Ring, action: Action)
    requires ValidSize(s) && Enabled(s, action) && !action.Timeout?
    ensures Step(s, action).restarts == s.restarts
  {
  }

  /** One more action on the way, when nobody lags yet. */
  lemma NextOnTheWay(s: Ring, n: nat, tokens: nat) returns (action: Action)
    requires Crowded(s, n, tokens) && LeadSum(s.nodes, s.log, 0, tokens, n) > 0
    requires forall i: nat :: !Enabled(s, Lag(i))
    ensures Enabled(s, action) && Crowded(Step(s, action), n, tokens) && Step(s, action).restarts == s.restarts
    ensures var t := Step(s, action);
      |t.log| == |s.log| + 1
      || (|t.log| == |s.log| && Unread(t.nodes, |t.log|, n) < Unread(s.nodes, |s.log|, n))
      || (|t.log| == |s.log| && action.Enqueue? && Unready(t, n) < Unready(s, n)
        && Unread(t.nodes, |t.log|, n) == Unread(s.nodes, |s.log|, n))
  {
    CrowdedSize(s, n, tokens);
    hide Lead, Times, Accounted, NodeLead;
    var j := BusyNode(s.nodes, s.log, tokens, n);
    var node := s.nodes[j];
    if !Holds(node) {
      BusyReads(node, s.log, j, tokens, n);
      action := Receive(j);
      assert !Enabled(s, Lag(j));
      CrowdedReceive(s, n, tokens, j);
    } else if node.drained {
      action := Pass(j);
      CrowdedSend(s, n, tokens, action);
    } else if node.pending != [] {
      action := Drain(j);
      CrowdedSend(s, n, tokens, action);
    } else {
      action := Enqueue(j, FILLER);
      CrowdedEnqueue(s, n, tokens, j);
      UnreadyChange(s.nodes, j, node.(pending := node.pending + [FILLER]), n);
      UnreadSame(s.nodes, |s.log|, j, node.(pending := node.pending + [FILLER]), n);
    }
    RestartsKept(s, action);
  }

  /** Masters with an empty queue. */
  function Empties(nodes: seq<Node>, m: nat): nat
    requires m <= |nodes|
  {
    if m == 0 then 0 else Empties(nodes, m - 1) + if nodes[m - 1].pending == [] then 1 else 0
  }

  function Unready(s: Ring, n: nat): nat
    requires n <= |s.nodes|
  {
    Empties(s.nodes, n)
  }

  lemma {:induction false} UnreadyChange(nodes: seq<Node>, k: nat, node: Node, m: nat)
    requires k < |nodes| && m <= |nodes| && nodes[k].pending == [] && node.pending != []
    ensures Empties(nodes[k := node], m) == Empties(nodes, m) - if k < m then 1 else 0
    decreases m
  {
    if m > 0 {
      UnreadyChange(nodes, k, node, m - 1);
    }
  }

  lemma {:induction false} UnreadSame(nodes: seq<Node>, length: nat, k: nat, node: Node, m: nat)
    requires k < |nodes| && m <= |nodes| && node.cursor == nodes[k].cursor
    ensures Unread(nodes[k := node], length, m) == Unread(nodes, length, m)
    decreases m
  {
    if m > 0 {
      UnreadSame(nodes, length, k, node, m - 1);
    }
  }

  lemma CrowdedSize(s: Ring, n: nat, tokens: nat)
    requires Crowded(s, n, tokens)
    ensures |s.nodes| == n && ValidSize(s) && tokens <= |s.log| && 0 < n
    ensures s.nodes[0].cursor <= tokens
  {
    hide Lead, Times;
  }

  lemma {:induction false} DriveToLag(n: nat, past: seq<Action>, s: Ring, tokens: nat)
      returns (actions: seq<Action>, t: Ring, i: nat)
    requires 0 < n <= 255 && Run(Joined(n), past) == Some(s) && n * tokens > 256
    requires Crowded(s, n, tokens)
    ensures Run(Joined(n), actions) == Some(t) && t.restarts == s.restarts && Enabled(t, Lag(i))
    decreases if Crowded(s, n, tokens) then LeadSum(s.nodes, s.log, 0, tokens, n) else 0,
      if |s.nodes| == n then Unread(s.nodes, |s.log|, n) else 0,
      if |s.nodes| == n then Unready(s, n) else 0
  {
    CrowdedSize(s, n, tokens);
    hide Crowded, Step, Enabled, Run, LeadSum, Unread, Times;
    if k: nat :| Enabled(s, Lag(k)) {
      actions, t, i := past, s, k;
    } else if LeadSum(s.nodes, s.log, 0, tokens, n) == 0 {
      CrowdedEnd(s, n, tokens);
      actions, t, i := past, s, 0;
    } else {
      var action := NextOnTheWay(s, n, tokens);
      RunNext(n, past, s, action);
      SumOfLead(s, n, tokens);
      SumOfLead(Step(s, action), n, tokens);
      CrowdedSize(Step(s, action), n, tokens);
      actions, t, i := DriveToLag(n, past + [action], Step(s, action), tokens);
    }
  }

  /** Beyond the bound some run with these restarts lets a receiver lag. */
  lemma ManyTokensLag(n: nat, restarts: nat) returns (actions: seq<Action>, s: Ring, i: nat)
    requires 0 < n <= 255 && n * (1 + restarts) > 256
    ensures Run(Joined(n), actions) == Some(s) && s.restarts == restarts && Enabled(s, Lag(i))
  {
    var past, u := CrowdedStart(n, restarts);
    RunKeepsInvariant(n, past, u);
    CrowdLength(restarts + 1);
    CrowdedLead(n, restarts + 1, n);
    assert Crowded(u, n, restarts + 1);
    actions, s, i := DriveToLag(n, past, u, restarts + 1);
  }

  // ---- The exact bound ----------------------------------------------------------------------------------

  /** In no run with so many restarts, or fewer, does a receiver lag. */
  ghost predicate NeverLags(n: nat, restarts: nat)
    requires 0 < n <= 255
  {
    forall actions: seq<Action>, s: Ring :: Run(Joined(n), actions) == Some(s) && s.restarts <= restarts ==>
      forall i: nat :: !Enabled(s, Lag(i))
  }

  /** The main result on lag: a ring of `n` masters stands so many restarts without ever lagging if and only if
      masters times tokens is at most 256, half of what the bus retains. */
  lemma NeverLagsExactly(n: nat, restarts: nat)
    requires 0 < n <= 255
    ensures NeverLags(n, restarts) <==> n * (1 + restarts) <= 256
  {
    hide Enabled, Run;
    if n * (1 + restarts) <= 256 {
      forall actions: seq<Action>, s: Ring | Run(Joined(n), actions) == Some(s) && s.restarts <= restarts
        ensures forall i: nat :: !Enabled(s, Lag(i))
      {
        FewerTokens(n, s.restarts, restarts);
        FewTokensNeverLag(n, actions, s);
      }
    } else {
      var actions, s, i := ManyTokensLag(n, restarts);
    }
  }
}
