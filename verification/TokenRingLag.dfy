/** How far receivers fall behind, with any number of restarts.  The tokens that a restart adds all circulate, and
    each of them can put at most two frames per master on the bus before it waits for a slow receiver. */
module TokenRingLag {
  import opened Machine
  import opened Modular
  import opened MstpFrames
  import opened TokenRing
  import opened TokenRingAllRuns

  // ---- What the tokens can still send -------------------------------------------------------

  function Times(v: nat, k: nat): nat {
    v * k
  }

  lemma TimesNext(v: nat, k: nat)
    ensures Times(v, k + 1) == Times(v, k) + v && Times(v, 0) == 0 && Times(v, 1) == v
  {
  }

  lemma TimesMonotone(v: nat, w: nat, a: nat, b: nat)
    requires v <= w && a <= b
    ensures Times(v, a) <= Times(w, b)
  {
    MulMonotone(a, b, v);
    MulMonotone(v, w, b);
  }

  lemma TimesSum(v: nat, a: nat, b: nat)
    ensures Times(v, a + b) == Times(v, a) + Times(v, b)
  {
  }

  /** Passes that take a token from master `j` to master `i`. */
  function Gap(j: nat, i: nat, n: nat): nat
    requires i < n && j < n
  {
    if j <= i then i - j else i + n - j
  }

  /** The same for a token that `j` holds; from `i` to itself it goes all the way round. */
  function Hops(j: nat, i: nat, n: nat): nat
    requires i < n && j < n
  {
    if j == i then n else Gap(j, i, n)
  }

  /** Frames that a holder and those after it can send before the token waits for master `i`: two for each pass,
      unless the queue was looked at already. */
  function HeldLead(node: Node, j: nat, i: nat, n: nat): nat
    requires i < n && j < n
  {
    if !Holds(node) then 0 else 2 * Hops(j, i, n) - if node.drained then 1 else 0
  }

  /** The same for all tokens at or under way to node `j`, as if master `i` had read up to position `q`. */
  function NodeLead(node: Node, log: seq<Frame>, j: nat, i: nat, q: nat, n: nat): nat
    requires i < n && j < n && q <= |log|
  {
    HeldLead(node, j, i, n)
    + if j == i then Times(2 * n, TokensFrom(log[..q], node.cursor, i))
      else Times(2 * Gap(j, i, n), TokensFrom(log, node.cursor, j))
  }

  function LeadSum(nodes: seq<Node>, log: seq<Frame>, i: nat, q: nat, m: nat): nat
    requires i < |nodes| && m <= |nodes| && q <= |log|
  {
    if m == 0 then 0
    else LeadSum(nodes, log, i, q, m - 1) + NodeLead(nodes[m - 1], log, m - 1, i, q, |nodes|)
  }

  /** The frames after position `q`, and those still to come before all tokens wait for master `i`. */
  function Lead(s: Ring, i: nat, q: nat): nat
    requires i < |s.nodes| && q <= |s.log|
  {
    |s.log| - q + LeadSum(s.nodes, s.log, i, q, |s.nodes|)
  }

  lemma {:induction false} LeadChange(nodes: seq<Node>, log: seq<Frame>, i: nat, q: nat, k: nat, node: Node, m: nat)
    requires i < |nodes| && k < |nodes| && m <= |nodes| && q <= |log|
    ensures LeadSum(nodes[k := node], log, i, q, m) == LeadSum(nodes, log, i, q, m)
      + if k < m then NodeLead(node, log, k, i, q, |nodes|) - NodeLead(nodes[k], log, k, i, q, |nodes|) else 0
    decreases m
  {
    hide NodeLead;
    if m > 0 {
      LeadChange(nodes, log, i, q, k, node, m - 1);
    }
  }

  /** What one more frame on the bus adds: a token under way to `d` can send on to `i`. */
  function FrameLead(f: Frame, i: nat, n: nat): nat
    requires i < n
  {
    if IsToken(f) && f.destination < n then 2 * Gap(f.destination, i, n) else 0
  }

  lemma NodeLeadAppend(node: Node, log: seq<Frame>, f: Frame, j: nat, i: nat, q: nat, n: nat)
    requires i < n && j < n && q <= |log| && node.cursor <= |log|
    ensures NodeLead(node, log + [f], j, i, q, n)
      == NodeLead(node, log, j, i, q, n) + if IsTokenTo(f, j) then 2 * Gap(j, i, n) else 0
  {
    hide HeldLead, TokensFrom, Times;
    assert (log + [f])[..q] == log[..q];
    TokensFromAppend(log, f, node.cursor, j);
    TimesNext(2 * Gap(j, i, n), TokensFrom(log, node.cursor, j));
  }

  lemma {:induction false} LeadAppend(nodes: seq<Node>, log: seq<Frame>, f: Frame, i: nat, q: nat, m: nat)
    requires i < |nodes| && m <= |nodes| && q <= |log|
    requires forall j :: 0 <= j < |nodes| ==> nodes[j].cursor <= |log|
    ensures LeadSum(nodes, log + [f], i, q, m)
      == LeadSum(nodes, log, i, q, m) + if IsToken(f) && f.destination < m then FrameLead(f, i, |nodes|) else 0
    decreases m
  {
    hide NodeLead, Gap;
    if m > 0 {
      LeadAppend(nodes, log, f, i, q, m - 1);
      NodeLeadAppend(nodes[m - 1], log, f, m - 1, i, q, |nodes|);
    }
  }

  // ---- What a step does to it ------------------------------------------------------------------

  /** Only tokens and data are ever sent. */
  predicate NoPolls(log: seq<Frame>) {
    forall k :: 0 <= k < |log| ==> !log[k].frameType.PollForMaster?
  }

  /** Reading one frame. */
  lemma NodeLeadReads(log: seq<Frame>, node: Node, j: nat, i: nat, q: nat, n: nat)
    requires i < n <= 255 && j < n && q <= |log| && node.cursor < |log| && !Holds(node)
    requires j == i ==> node.cursor < q
    requires !log[node.cursor].frameType.PollForMaster?
    ensures NodeLead(ReceiveFrame(j, node, log[node.cursor]).node, log, j, i, q, n) == NodeLead(node, log, j, i, q, n)
  {
    hide TokensFrom, Times;
    var c := node.cursor;
    var seen := if j == i then log[..q] else log;
    assert seen[c] == log[c];
    TokensFromNext(seen, c, j);
    TimesNext(if j == i then 2 * n else 2 * Gap(j, i, n), TokensFrom(seen, c + 1, j));
  }

  /** What an effect of a node adds to the lead. */
  lemma LeadOfEffect(s: Ring, k: nat, e: Effect, i: nat, q: nat)
    requires ValidSize(s) && CursorsInLog(s) && k < |s.nodes| && i < |s.nodes| && q <= |s.log|
    requires e.node.cursor <= |s.log| && |e.sent| <= 1
    requires |e.sent| == 1 && IsToken(e.sent[0]) ==> e.sent[0].destination < |s.nodes|
    ensures var n, t := |s.nodes|, Apply(s, k, e);
      Lead(t, i, q) == Lead(s, i, q) + |e.sent| + (if |e.sent| == 1 then FrameLead(e.sent[0], i, n) else 0)
        + NodeLead(e.node, s.log, k, i, q, n) - NodeLead(s.nodes[k], s.log, k, i, q, n)
  {
    hide NodeLead, FrameLead;
    var n, nodes := |s.nodes|, s.nodes[k := e.node];
    LeadChange(s.nodes, s.log, i, q, k, e.node, n);
    if |e.sent| == 1 {
      assert e.sent == [e.sent[0]];
      LeadAppend(nodes, s.log, e.sent[0], i, q, n);
      NotToken(e.sent[0], i, n);
    } else {
      assert s.log + e.sent == s.log;
    }
  }

  lemma NotToken(f: Frame, i: nat, n: nat)
    requires i < n
    ensures !(IsToken(f) && f.destination < n) ==> FrameLead(f, i, n) == 0
  {
    hide Gap;
  }

  lemma LeadReceive(s: Ring, k: nat, i: nat, q: nat)
    requires ValidSize(s) && CursorsInLog(s) && NoPolls(s.log) && Enabled(s, Receive(k))
    requires i < |s.nodes| && q <= |s.log| && (k == i ==> s.nodes[i].cursor < q)
    ensures q <= |Step(s, Receive(k)).log| && Lead(Step(s, Receive(k)), i, q) == Lead(s, i, q)
    ensures Step(s, Receive(k)).log == s.log
  {
    hide NodeLead, Lead;
    var node := s.nodes[k];
    NodeLeadReads(s.log, node, k, i, q, |s.nodes|);
    LeadOfEffect(s, k, ReceiveFrame(k, node, s.log[node.cursor]), i, q);
  }

  /** Looking at the queue uses up a frame, sent or not. */
  lemma LeadDrain(s: Ring, k: nat, i: nat, q: nat)
    requires ValidSize(s) && CursorsInLog(s) && Enabled(s, Drain(k)) && i < |s.nodes| && q <= |s.log|
    ensures var t := Step(s, Drain(k));
      q <= |t.log| && Lead(t, i, q) == Lead(s, i, q) - if s.nodes[k].pending == [] then 1 else 0
  {
    hide Lead, TokensFrom, Times, Gap;
    LeadOfEffect(s, k, DrainPending(k, s.nodes[k]), i, q);
    GapOf(k, i, |s.nodes|);
  }

  lemma GapOf(j: nat, i: nat, n: nat)
    requires i < n && j < n
    ensures Gap(j, i, n) < n && (Gap(j, i, n) == 0 <==> j == i) && 1 <= Hops(j, i, n) <= n
  {
  }

  /** A pass is a frame, and takes the token one hop on. */
  lemma LeadPass(s: Ring, k: nat, i: nat, q: nat)
    requires ValidSize(s) && CursorsInLog(s) && Enabled(s, Pass(k)) && i < |s.nodes| && q <= |s.log|
    ensures var t := Step(s, Pass(k)); q <= |t.log| && Lead(t, i, q) == Lead(s, i, q)
  {
    hide Lead, TokensFrom, Times, Gap;
    var n := |s.nodes|;
    LeadOfEffect(s, k, PassToken(k, n - 1, s.nodes[k]), i, q);
    HopOn(k, i, n);
  }

  lemma HopOn(k: nat, i: nat, n: nat)
    requires i < n <= 255 && k < n
    ensures NextStation(k, n - 1) < n && Gap(NextStation(k, n - 1), i, n) + 1 == Hops(k, i, n)
  {
    var next := if k + 1 == n then 0 else k + 1;
    NextIs(k, n);
  }

  lemma NextIs(k: nat, n: nat)
    requires k < n <= 255
    ensures NextStation(k, n - 1) == if k + 1 == n then 0 else k + 1
  {
    if k + 1 == n {
      DivModUnique(1, 0, n);
    } else {
      DivModUnique(0, k + 1, n);
    }
  }

  /** A new token for master 0. */
  lemma LeadNewToken(s: Ring, i: nat, q: nat)
    requires ValidSize(s) && CursorsInLog(s) && i < |s.nodes| && q <= |s.log|
    ensures var n, t := |s.nodes|, s.(log := s.log + [TokenFrame(0, 0)]);
      Lead(t, i, q) == Lead(s, i, q) + 1 + 2 * Gap(0, i, n)
  {
    hide NodeLead, Gap;
    LeadAppend(s.nodes, s.log, TokenFrame(0, 0), i, q, |s.nodes|);
  }

  // ---- The bound ---------------------------------------------------------------------------------

  function Tokens(s: Ring): nat {
    (if s.booted then 1 else 0) + s.restarts
  }

  /** No token can have put more than two frames per master in front of any receiver. */
  predicate Ahead(s: Ring) {
    forall i, q: nat :: 0 <= i < |s.nodes| && s.nodes[i].cursor <= q <= |s.log| ==>
      Lead(s, i, q) <= Times(2 * |s.nodes|, Tokens(s))
  }

  lemma NodeLeadBounded(node: Node, log: seq<Frame>, j: nat, i: nat, q: nat, n: nat)
    requires i < n && j < n && node.cursor <= |log| && q <= |log| && (j == i ==> node.cursor <= q)
    ensures NodeLead(node, log, j, i, q, n) <= Times(2 * n, Weight(node, log, j))
  {
    hide TokensFrom, Times, Gap;
    GapOf(j, i, n);
    var k := TokensFrom(log, node.cursor, j);
    if j == i {
      TokensFromSplit(log, node.cursor, q, i);
      TimesMonotone(2 * n, 2 * n, TokensFrom(log[..q], node.cursor, i), k);
    } else {
      TimesMonotone(2 * Gap(j, i, n), 2 * n, k, k);
    }
    TimesNext(2 * n, k);
  }

  lemma {:induction false} LeadSumBounded(s: Ring, i: nat, q: nat, m: nat)
    requires CursorsInLog(s) && i < |s.nodes| && m <= |s.nodes| && s.nodes[i].cursor <= q <= |s.log|
    ensures LeadSum(s.nodes, s.log, i, q, m) <= Times(2 * |s.nodes|, Total(s.nodes, s.log, m))
    decreases m
  {
    hide NodeLead, Times, Weight;
    TimesNext(2 * |s.nodes|, 0);
    if m > 0 {
      LeadSumBounded(s, i, q, m - 1);
      NodeLeadBounded(s.nodes[m - 1], s.log, m - 1, i, q, |s.nodes|);
      TimesSum(2 * |s.nodes|, Total(s.nodes, s.log, m - 1), Weight(s.nodes[m - 1], s.log, m - 1));
    }
  }

  /** At the end of the log the account of tokens is enough. */
  lemma AheadAtEnd(s: Ring, i: nat)
    requires CursorsInLog(s) && Conserved(s) && i < |s.nodes|
    ensures Lead(s, i, |s.log|) <= Times(2 * |s.nodes|, Tokens(s))
  {
    hide LeadSum, Times, Total;
    LeadSumBounded(s, i, |s.log|, |s.nodes|);
    TimesMonotone(2 * |s.nodes|, 2 * |s.nodes|, Total(s.nodes, s.log, |s.nodes|), Tokens(s));
  }

  // ---- Every run ------------------------------------------------------------------------------------

  /** A token more pays for its own frame and all that it can send. */
  lemma NewTokenPaid(i: nat, n: nat, tokens: nat)
    requires i < n
    ensures Times(2 * n, tokens) + 1 + 2 * Gap(0, i, n) <= Times(2 * n, tokens + 1)
  {
    hide Gap, Times;
    GapOf(0, i, n);
    TimesNext(2 * n, tokens);
  }

  lemma LeadEnqueue(s: Ring, k: nat, item: Outbound, i: nat, q: nat)
    requires ValidSize(s) && Enabled(s, Enqueue(k, item)) && i < |s.nodes| && q <= |s.log|
    ensures Lead(Step(s, Enqueue(k, item)), i, q) == Lead(s, i, q)
  {
    hide TokensFrom, Times, Hops, Gap;
    LeadChange(s.nodes, s.log, i, q, k, s.nodes[k].(pending := s.nodes[k].pending + [item]), |s.nodes|);
  }

  lemma LeadNotChanged(s: Ring, t: Ring, i: nat, q: nat)
    requires t.nodes == s.nodes && t.log == s.log && i < |s.nodes| && q <= |s.log|
    ensures Lead(t, i, q) == Lead(s, i, q)
  {
    hide LeadSum;
  }

  /** A step other than lag leaves the lead over an old position alone, but for a token that is new. */
  lemma LeadStep(s: Ring, action: Action, i: nat, q: nat)
    requires ValidSize(s) && CursorsInLog(s) && NoPolls(s.log) && Enabled(s, action) && !action.Lag?
    requires i < |s.nodes| && q <= |s.log| && Step(s, action).nodes[i].cursor <= q
    ensures var t := Step(s, action);
      |t.nodes| == |s.nodes| && q <= |t.log| && Tokens(s) <= Tokens(t) <= Tokens(s) + 1
      && Lead(t, i, q) <= Lead(s, i, q) + if Tokens(t) == Tokens(s) then 0 else 1 + 2 * Gap(0, i, |s.nodes|)
  {
    hide Lead, Gap;
    match action
    case Boot =>
      LeadNewToken(s, i, q);
      LeadNotChanged(s.(log := s.log + [TokenFrame(0, 0)]), Step(s, action), i, q);
    case Receive(k) => LeadReceive(s, k, i, q);
    case Drain(k) => LeadDrain(s, k, i, q);
    case Pass(k) => LeadPass(s, k, i, q);
    case Timeout(k) =>
      assert s.nodes[k := s.nodes[k]] == s.nodes;
      if k == 0 {
        LeadNewToken(s, i, q);
        LeadNotChanged(s.(log := s.log + [TokenFrame(0, 0)]), Step(s, action), i, q);
      } else {
        assert s.log + [] == s.log;
        LeadNotChanged(s, Step(s, action), i, q);
      }
    case Enqueue(k, item) => LeadEnqueue(s, k, item, i, q);
  }

  lemma StepAppends(s: Ring, action: Action)
    requires ValidSize(s) && NoPolls(s.log) && Enabled(s, action)
    ensures var t := Step(s, action);
      |s.log| <= |t.log| <= |s.log| + 1 && NoPolls(t.log) && |t.nodes| == |s.nodes|
      && forall i :: 0 <= i < |s.nodes| ==> s.nodes[i].cursor <= t.nodes[i].cursor
  {
  }

  lemma StepKeepsAhead(s: Ring, action: Action)
    requires Accounted(s) && NoPolls(s.log) && Ahead(s) && Enabled(s, action) && !action.Lag?
    ensures Accounted(Step(s, action)) && NoPolls(Step(s, action).log) && Ahead(Step(s, action))
  {
    StepConserves(s, action);
    StepAppends(s, action);
    var n, t := |s.nodes|, Step(s, action);
    hide Step, Lead, Gap, Times, Conserved, Tokens, NoPolls;
    forall i, q: nat | 0 <= i < |t.nodes| && t.nodes[i].cursor <= q <= |t.log|
      ensures Lead(t, i, q) <= Times(2 * |t.nodes|, Tokens(t))
    {
      if q == |t.log| {
        AheadAtEnd(t, i);
      } else {
        LeadStep(s, action, i, q);
        NewTokenPaid(i, n, Tokens(s));
      }
    }
  }

  lemma NobodyLags(s: Ring)
    requires ValidSize(s) && CursorsInLog(s) && Ahead(s) && |s.nodes| * Tokens(s) <= 256
    ensures forall i: nat :: !Enabled(s, Lag(i))
  {
    hide LeadSum, Tokens;
    forall i: nat ensures !Enabled(s, Lag(i)) {
      if i < |s.nodes| {
        TwiceTimes(|s.nodes|, Tokens(s));
        assert Lead(s, i, s.nodes[i].cursor) <= Times(2 * |s.nodes|, Tokens(s));
      }
    }
  }

  lemma TwiceTimes(n: nat, k: nat)
    ensures Times(2 * n, k) == 2 * (n * k)
  {
  }

  lemma FewerTokens(n: nat, fewer: nat, more: nat)
    requires fewer <= more && n * (1 + more) <= 256
    ensures n * (1 + fewer) <= 256
  {
    MulMonotone(1 + fewer, 1 + more, n);
  }

  lemma NothingTakenBack(s: Ring, action: Action)
    requires ValidSize(s) && Enabled(s, action)
    ensures s.booted ==> Step(s, action).booted
    ensures s.restarts <= Step(s, action).restarts
  {
  }

  lemma {:induction false} FewTokensInvariant(n: nat, actions: seq<Action>, s: Ring)
    requires 0 < n <= 255 && Run(Joined(n), actions) == Some(s) && n * (1 + s.restarts) <= 256
    ensures |s.nodes| == n && Accounted(s) && NoPolls(s.log) && Ahead(s) && s.skipped == 0
    ensures forall i: nat :: !Enabled(s, Lag(i))
    decreases |actions|
  {
    hide Step, Ahead, Accounted, Enabled;
    if actions == [] {
      JoinedAhead(n);
    } else {
      var last := |actions| - 1;
      var u := Run(Joined(n), actions[..last]).value;
      NothingTakenBack(u, actions[last]);
      FewerTokens(n, u.restarts, s.restarts);
      FewTokensInvariant(n, actions[..last], u);
      StepKeepsAhead(u, actions[last]);
      StepKeepsSize(u, actions[last]);
      OnlyLagSkips(u, actions[last]);
    }
    AheadNobodyLags(s, n);
  }

  lemma OnlyLagSkips(s: Ring, action: Action)
    requires ValidSize(s) && Enabled(s, action) && !action.Lag?
    ensures Step(s, action).skipped == s.skipped
  {
  }

  lemma AheadNobodyLags(s: Ring, n: nat)
    requires Accounted(s) && Ahead(s) && |s.nodes| == n && n * (1 + s.restarts) <= 256
    ensures forall i: nat :: !Enabled(s, Lag(i))
  {
    hide Ahead, Conserved, TokensStayInRing;
    MulMonotone(Tokens(s), 1 + s.restarts, n);
    NobodyLags(s);
  }

  lemma JoinedAhead(n: nat)
    requires 0 < n <= 255
    ensures Accounted(Joined(n)) && NoPolls(Joined(n).log) && Ahead(Joined(n))
  {
    JoinedInvariant(n);
    hide Lead, Times, Conserved, TokensStayInRing;
    forall i | 0 <= i < n ensures Lead(Joined(n), i, 0) <= Times(2 * n, Tokens(Joined(n))) {
      AheadAtEnd(Joined(n), i);
    }
  }

  /** The main result on restarts without lag: with at most 256 masters times tokens no receiver ever lags, no
      token is lost, and exactly one token more circulates than there were restarts. */
  lemma FewTokensNeverLag(n: nat, actions: seq<Action>, s: Ring)
    requires 0 < n <= 255 && Run(Joined(n), actions) == Some(s) && n * (1 + s.restarts) <= 256
    ensures |s.nodes| == n && s.skipped == 0 && Total(s.nodes, s.log, n) == Tokens(s)
    ensures forall i: nat :: !Enabled(s, Lag(i))
  {
    hide Enabled, Ahead;
    FewTokensInvariant(n, actions, s);
  }
}
