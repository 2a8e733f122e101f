/** Runs in which address 0 never restarts the ring: a single token visits the masters in turn. */
module TokenRingInTurn {
  import opened Modular
  import opened MstpFrames
  import opened TokenRing
  import opened TokenRingAllRuns

  // ---- The log ------------------------------------------------------------------

  /** How many tokens were sent before position k. */
  function Ordinal(log: seq<Frame>, k: nat): nat
    requires k <= |log|
  {
    if k == 0 then 0 else Ordinal(log, k - 1) + if IsToken(log[k - 1]) then 1 else 0
  }

  function TokensSent(log: seq<Frame>): nat {
    Ordinal(log, |log|)
  }

  /** Token number t goes from master t-1 to master t, modulo the ring size; a data frame
      directly follows a token and comes from the master that token was sent to. */
  predicate FrameInTurn(log: seq<Frame>, k: nat, n: nat)
    requires k < |log| && 0 < n <= 255
  {
    var f, t := log[k], Ordinal(log, k);
    if IsToken(f) then
      f == TokenFrame(t % n, if t == 0 then 0 else (t - 1) % n)
    else
      f.frameType.BacnetDataNotExpectingReply? && k > 0 && IsToken(log[k - 1]) && f.source == log[k - 1].destination
  }

  predicate InTurn(log: seq<Frame>, n: nat)
    requires 0 < n <= 255
  {
    forall k :: 0 <= k < |log| ==> FrameInTurn(log, k, n)
  }

  /** Of K tokens received in turn, how many went to master i: the ceiling of (K - i) / n. */
  function Share(K: nat, i: nat, n: nat): nat
    requires i < n
  {
    (K + n - 1 - i) / n
  }

  // ---- The ring -------------------------------------------------------------------

  /** The position of the newest token. */
  function Newest(log: seq<Frame>): nat
    requires log != []
  {
    if IsToken(log[|log| - 1]) || |log| == 1 then |log| - 1 else |log| - 2
  }

  /** The master whose turn it is. */
  function Turn(s: Ring): nat
    requires |s.nodes| > 0 && TokensSent(s.log) > 0
  {
    (TokensSent(s.log) - 1) % |s.nodes|
  }

  /** Tokens received so far: all that were sent, but for one that is still in flight. */
  function TokensReceived(s: Ring): nat
    requires |s.nodes| > 0 && TokensSent(s.log) > 0
  {
    TokensSent(s.log) - if Holds(s.nodes[Turn(s)]) then 0 else 1
  }

  predicate Unbooted(s: Ring) {
    && !s.booted && s.log == []
    && forall i :: 0 <= i < |s.nodes| ==> !Holds(s.nodes[i]) && s.nodes[i].cursor == 0 && s.nodes[i].received == 0
  }

  /** The one token is held by, or in flight to, the master whose turn it is. */
  predicate OneToken(s: Ring)
    requires |s.nodes| > 0 && TokensSent(s.log) > 0
  {
    var turn, newest := s.nodes[Turn(s)], Newest(s.log);
    && (forall i :: 0 <= i < |s.nodes| && i != Turn(s) ==> !Holds(s.nodes[i]))
    && if Holds(turn) then
         newest < turn.cursor && (!turn.drained ==> newest == |s.log| - 1)
       else
         turn.cursor <= newest == |s.log| - 1
  }

  predicate OlderTokensRead(s: Ring)
    requires s.log != []
  {
    forall k :: 0 <= k < Newest(s.log) && IsToken(s.log[k]) ==>
      s.log[k].destination < |s.nodes| && k < s.nodes[s.log[k].destination].cursor
  }

  predicate Circulating(s: Ring) {
    && ValidSize(s)
    && CursorsInLog(s)
    && s.booted
    && TokensSent(s.log) > 0
    && s.log != []
    && InTurn(s.log, |s.nodes|)
    && OneToken(s)
    && OlderTokensRead(s)
    && forall i :: 0 <= i < |s.nodes| ==> s.nodes[i].received == Share(TokensReceived(s), i, |s.nodes|)
  }

  predicate Orderly(s: Ring) {
    ValidSize(s) && (Unbooted(s) || Circulating(s))
  }

  // ---- Facts about the log -----------------------------------------------------------

  lemma {:induction false} OrdinalPrefix(log: seq<Frame>, f: Frame, k: nat)
    requires k <= |log|
    ensures Ordinal(log + [f], k) == Ordinal(log, k)
  {
    if k > 0 {
      OrdinalPrefix(log, f, k - 1);
    }
  }

  lemma TokensSentAppend(log: seq<Frame>, f: Frame)
    ensures TokensSent(log + [f]) == TokensSent(log) + if IsToken(f) then 1 else 0
  {
    OrdinalPrefix(log, f, |log|);
  }

  lemma InTurnAppend(log: seq<Frame>, f: Frame, n: nat)
    requires 0 < n <= 255 && InTurn(log, n)
    requires if IsToken(f) then
               f == TokenFrame(TokensSent(log) % n, if TokensSent(log) == 0 then 0 else (TokensSent(log) - 1) % n)
             else
               f.frameType.BacnetDataNotExpectingReply? && log != []
               && IsToken(log[|log| - 1]) && f.source == log[|log| - 1].destination
    ensures InTurn(log + [f], n)
  {
    forall k | 0 <= k < |log + [f]| ensures FrameInTurn(log + [f], k, n) {
      OrdinalPrefix(log, f, k);
      assert k < |log| ==> FrameInTurn(log, k, n);
    }
  }

  lemma NewestIsToken(log: seq<Frame>, n: nat)
    requires 0 < n <= 255 && log != [] && InTurn(log, n)
    ensures IsToken(log[Newest(log)])
    ensures forall k :: Newest(log) < k < |log| ==> !IsToken(log[k])
    ensures TokensSent(log) == Ordinal(log, Newest(log)) + 1
    ensures log[Newest(log)].destination == (TokensSent(log) - 1) % n
  {
    assert FrameInTurn(log, |log| - 1, n);
    assert FrameInTurn(log, Newest(log), n);
    if Newest(log) == |log| - 2 {
      assert Ordinal(log, |log|) == Ordinal(log, |log| - 1);
      assert Ordinal(log, |log| - 1) == Ordinal(log, |log| - 2) + 1;
    }
  }

  /** Every token number below the total has a position. */
  lemma {:induction false} TokenAt(log: seq<Frame>, t: nat, end: nat) returns (k: nat)
    requires end <= |log| && t < Ordinal(log, end)
    ensures k < end && IsToken(log[k]) && Ordinal(log, k) == t
  {
    if Ordinal(log, end - 1) == t {
      k := end - 1;
    } else {
      k := TokenAt(log, t, end - 1);
    }
  }

  lemma {:induction false} OrdinalMonotone(log: seq<Frame>, a: nat, b: nat)
    requires a <= b <= |log|
    ensures Ordinal(log, a) <= Ordinal(log, b)
    ensures a < b && IsToken(log[a]) ==> Ordinal(log, a) < Ordinal(log, b)
  {
    if a < b {
      OrdinalMonotone(log, a, b - 1);
    }
  }

  /** Tokens are at least every second frame. */
  lemma {:induction false} TokensAreDense(log: seq<Frame>, a: nat, b: nat, n: nat)
    requires 0 < n <= 255 && InTurn(log, n) && a <= b <= |log|
    ensures b - a <= 2 * (Ordinal(log, b) - Ordinal(log, a)) + 1
    ensures a < b && IsToken(log[b - 1]) ==> b - a <= 2 * (Ordinal(log, b) - Ordinal(log, a))
  {
    if a < b {
      TokensAreDense(log, a, b - 1, n);
      assert FrameInTurn(log, b - 1, n);
    }
  }

  // ---- No receiver lags -----------------------------------------------------------------

  lemma UnreadTokensBounded(s: Ring, i: nat)
    requires Circulating(s) && i < |s.nodes|
    ensures TokensSent(s.log) - Ordinal(s.log, s.nodes[i].cursor) <= |s.nodes|
  {
    var log, n, c := s.log, |s.nodes|, s.nodes[i].cursor;
    if TokensSent(log) > Ordinal(log, c) + n {
      var t := RemainderWithin(Ordinal(log, c), i, n);
      var k := TokenAt(log, t, |log|);
      assert FrameInTurn(log, k, n);
      NewestIsToken(log, n);
      if k < c {
        OrdinalMonotone(log, k, c);
      } else if Newest(log) <= k {
        OrdinalMonotone(log, Newest(log), k);
      }
    }
  }

  /** A receiver of a ring of at most 255 masters never falls behind what the bus retains. */
  lemma NoLag(s: Ring, i: nat)
    requires Orderly(s) && i < |s.nodes|
    ensures |s.log| <= s.nodes[i].cursor + BUS_CHANNEL_CAPACITY
    ensures !Enabled(s, Lag(i))
  {
    if Circulating(s) {
      UnreadTokensBounded(s, i);
      TokensAreDense(s.log, s.nodes[i].cursor, |s.log|, |s.nodes|);
    }
  }

  // ---- Every step keeps the token in turn --------------------------------------------------

  lemma ShareRemainder(K: nat, i: nat, n: nat)
    requires i < n
    ensures (K + n - 1 - i) % n == if K % n > i then K % n - 1 - i else K % n + n - 1 - i
  {
    var q, r := K / n, K % n;
    assert K == q * n + r;
    if r > i {
      assert K + n - 1 - i == (q + 1) * n + (r - 1 - i);
      DivModUnique(q + 1, r - 1 - i, n);
    } else {
      assert K + n - 1 - i == q * n + (r + n - 1 - i);
      DivModUnique(q, r + n - 1 - i, n);
    }
  }

  lemma ShareNext(K: nat, i: nat, n: nat)
    requires i < n
    ensures Share(K + 1, i, n) == Share(K, i, n) + if K % n == i then 1 else 0
  {
    NextMod(K + n - 1 - i, n);
    ShareRemainder(K, i, n);
  }

  lemma ShareOfNone(i: nat, n: nat)
    requires i < n
    ensures Share(0, i, n) == 0
  {
    DivModUnique(0, n - 1 - i, n);
  }

  lemma BootOrderly(s: Ring)
    requires ValidSize(s) && Unbooted(s)
    ensures Circulating(Step(s, Boot))
  {
    var t := Step(s, Boot);
    assert t.log == [TokenFrame(0, 0)];
    InTurnAppend([], TokenFrame(0, 0), |s.nodes|);
    assert Ordinal(t.log, 0) == 0;
    assert [] + [TokenFrame(0, 0)] == t.log;
    DivModUnique(0, 0, |s.nodes|);
    forall i | 0 <= i < |s.nodes| ensures t.nodes[i].received == Share(TokensReceived(t), i, |s.nodes|) {
      ShareOfNone(i, |s.nodes|);
    }
  }

  /** What a master reads is a token or data, and a token for it is the newest one. */
  lemma UnreadFrame(s: Ring, i: nat)
    requires Circulating(s) && i < |s.nodes| && s.nodes[i].cursor < |s.log|
    ensures var c := s.nodes[i].cursor;
      !s.log[c].frameType.PollForMaster?
      && (IsTokenTo(s.log[c], i) ==> c == Newest(s.log) && i == Turn(s) && c == |s.log| - 1)
  {
    hide Ordinal, Share;
    NewestIsToken(s.log, |s.nodes|);
    assert FrameInTurn(s.log, s.nodes[i].cursor, |s.nodes|);
  }

  /** Only a cursor moves. */
  lemma CursorOrderly(s: Ring, i: nat)
    requires Circulating(s) && i < |s.nodes| && s.nodes[i].cursor < |s.log|
    requires !IsTokenTo(s.log[s.nodes[i].cursor], i) && !Holds(s.nodes[i])
    ensures Circulating(s.(nodes := s.nodes[i := s.nodes[i].(cursor := s.nodes[i].cursor + 1)]))
  {
    var t := s.(nodes := s.nodes[i := s.nodes[i].(cursor := s.nodes[i].cursor + 1)]);
    NewestIsToken(s.log, |s.nodes|);
    hide Ordinal, Share, InTurn;
    assert Turn(t) == Turn(s) && TokensReceived(t) == TokensReceived(s);
  }

  /** The newest token is taken. */
  lemma TakenOrderly(s: Ring, i: nat)
    requires Circulating(s) && i < |s.nodes| && s.nodes[i].cursor == Newest(s.log) == |s.log| - 1
    requires i == Turn(s) && !Holds(s.nodes[i])
    ensures var node := s.nodes[i];
      Circulating(s.(nodes := s.nodes[i :=
        node.(cursor := node.cursor + 1, state := UseToken, drained := false, received := node.received + 1)]))
  {
    var node := s.nodes[i];
    var t := s.(nodes := s.nodes[i :=
      node.(cursor := node.cursor + 1, state := UseToken, drained := false, received := node.received + 1)]);
    hide Ordinal, InTurn, Share;
    var n, K := |s.nodes|, TokensReceived(s);
    assert Turn(t) == Turn(s) == K % n && TokensReceived(t) == K + 1;
    forall j | 0 <= j < n ensures t.nodes[j].received == Share(K + 1, j, n) {
      ShareNext(K, j, n);
    }
  }

  lemma ReceiveOrderly(s: Ring, i: nat)
    requires Circulating(s) && Enabled(s, Receive(i))
    ensures Circulating(Step(s, Receive(i)))
  {
    UnreadFrame(s, i);
    assert s.log + [] == s.log;
    hide Circulating, Newest, Turn;
    if IsTokenTo(s.log[s.nodes[i].cursor], i) {
      TakenOrderly(s, i);
    } else {
      CursorOrderly(s, i);
    }
  }

  lemma DrainOrderly(s: Ring, i: nat)
    requires Circulating(s) && Enabled(s, Drain(i))
    ensures Circulating(Step(s, Drain(i)))
  {
    var t := Step(s, Drain(i));
    NewestIsToken(s.log, |s.nodes|);
    if s.nodes[i].pending == [] {
      assert t.log == s.log;
    } else {
      var f := DataFrame(i, s.nodes[i].pending[0]);
      InTurnAppend(s.log, f, |s.nodes|);
      TokensSentAppend(s.log, f);
    }
  }

  /** The holder's successor is the next master in turn. */
  lemma PassInTurn(s: Ring, i: nat)
    requires Circulating(s) && Enabled(s, Pass(i))
    ensures var t, n := Step(s, Pass(i)), |s.nodes|;
      && InTurn(t.log, n)
      && TokensSent(t.log) == TokensSent(s.log) + 1
      && Newest(t.log) == |s.log|
      && Turn(t) == TokensSent(s.log) % n
  {
    var n := |s.nodes|;
    var f := TokenFrame(NextStation(i, n - 1), i);
    assert i == Turn(s);
    NextMod(TokensSent(s.log) - 1, n);
    assert NextStation(i, n - 1) == TokensSent(s.log) % n;
    InTurnAppend(s.log, f, n);
    TokensSentAppend(s.log, f);
  }

  lemma PassOrderly(s: Ring, i: nat)
    requires Circulating(s) && Enabled(s, Pass(i))
    ensures Circulating(Step(s, Pass(i)))
  {
    var t, n := Step(s, Pass(i)), |s.nodes|;
    PassInTurn(s, i);
    NewestIsToken(s.log, n);
    forall k | 0 <= k < Newest(t.log) && IsToken(t.log[k])
      ensures t.log[k].destination < n && k < t.nodes[t.log[k].destination].cursor
    {
      assert FrameInTurn(s.log, k, n);
    }
  }

  lemma StepOrderly(s: Ring, action: Action)
    requires Orderly(s) && Enabled(s, action) && action != Timeout(0)
    ensures Orderly(Step(s, action))
  {
    match action
    case Boot => BootOrderly(s);
    case Receive(i) => ReceiveOrderly(s, i);
    case Drain(i) => DrainOrderly(s, i);
    case Pass(i) => PassOrderly(s, i);
    case Timeout(i) =>
      assert s.log + [] == s.log;
      assert s.nodes[i := s.nodes[i]] == s.nodes;
    case Lag(i) => NoLag(s, i);
    case Enqueue(i, item) =>
      var t := Step(s, action);
      assert t.log == s.log;
  }
}
