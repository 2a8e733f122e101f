/** What a restart does to the one token: exactly the runs without a restart keep it the only one. */
module TokenRingRestarts {
  import opened Machine
  import opened TokenRing
  import opened TokenRingAllRuns
  import opened TokenRingProgress
  import opened TokenRingLiveness

  /** The first restart of a run always finds a token alive, and makes a second one. */
  lemma RestartMakesTwo(n: nat, actions: seq<Action>, s: Ring)
    requires 0 < n <= 255 && Run(Joined(n), actions) == Some(s) && s.restarts == 0
    requires ValidSize(s) && Enabled(s, Timeout(0))
    ensures var t := Step(s, Timeout(0));
      Run(Joined(n), actions + [Timeout(0)]) == Some(t) && |t.nodes| == n && Total(t.nodes, t.log, n) == 2
  {
    hide Total;
    SingleTokenInTurn(n, actions, s);
    assert (actions + [Timeout(0)])[..|actions|] == actions;
    EveryRun(n, actions + [Timeout(0)], Step(s, Timeout(0)));
  }

  lemma {:induction false} RestartsCounted(n: nat, actions: seq<Action>, s: Ring)
    requires 0 < n <= 255 && Run(Joined(n), actions) == Some(s)
    ensures s.restarts == 0 <==> NoRestart(actions)
    decreases |actions|
  {
    if actions != [] {
      var last := |actions| - 1;
      var u := Run(Joined(n), actions[..last]).value;
      RestartsCounted(n, actions[..last], u);
      StepRestarts(u, actions[last]);
      hide Step, Enabled;
      assert actions == actions[..last] + [actions[last]];
    }
  }

  lemma StepRestarts(s: Ring, action: Action)
    requires ValidSize(s) && Enabled(s, action)
    ensures Step(s, action).restarts == s.restarts + if action == Timeout(0) then 1 else 0
  {
  }

  lemma {:induction false} RunPrefix(n: nat, actions: seq<Action>, k: nat)
    requires 0 < n <= 255 && Run(Joined(n), actions).Some? && k <= |actions|
    ensures Run(Joined(n), actions[..k]).Some?
    decreases |actions|
  {
    hide Step, Enabled;
    if k == |actions| {
      assert actions[..k] == actions;
    } else {
      RunPrefix(n, actions[..|actions| - 1], k);
      assert actions[..|actions| - 1][..k] == actions[..k];
    }
  }

  /** At no time during the run is there more than one token in flight or held. */
  ghost predicate AtMostOneToken(n: nat, actions: seq<Action>)
    requires 0 < n <= 255
  {
    forall k: nat :: k <= |actions| ==> OneTokenAfter(n, actions[..k])
  }

  predicate OneTokenAfter(n: nat, actions: seq<Action>)
    requires 0 < n <= 255
  {
    match Run(Joined(n), actions)
    case Some(s) => |s.nodes| == n && Total(s.nodes, s.log, n) <= 1
    case None => true
  }

  lemma NoRestartOneToken(n: nat, actions: seq<Action>)
    requires 0 < n <= 255 && Run(Joined(n), actions).Some? && NoRestart(actions)
    ensures OneTokenAfter(n, actions)
  {
    var s := Run(Joined(n), actions).value;
    RestartsCounted(n, actions, s);
    SingleTokenInTurn(n, actions, s);
  }

  lemma {:induction false} FirstRestart(actions: seq<Action>) returns (k: nat)
    requires !NoRestart(actions)
    ensures k < |actions| && actions[k] == Timeout(0) && NoRestart(actions[..k])
    decreases |actions|
  {
    var last := |actions| - 1;
    if NoRestart(actions[..last]) {
      k := last;
      assert actions == actions[..last] + [actions[last]];
    } else {
      k := FirstRestart(actions[..last]);
      assert actions[..last][..k] == actions[..k];
    }
  }

  lemma LastStep(n: nat, actions: seq<Action>, k: nat)
    requires 0 < n <= 255 && k < |actions| && Run(Joined(n), actions[..k + 1]).Some?
    ensures Run(Joined(n), actions[..k]).Some?
    ensures var s := Run(Joined(n), actions[..k]).value; ValidSize(s) && Enabled(s, actions[k])
    ensures actions[..k + 1] == actions[..k] + [actions[k]]
  {
    hide Step, Enabled;
    assert actions[..k + 1][..k] == actions[..k];
  }

  /** The main result on restarts: in every run there is at most one token at all times if and only if address 0
      never restarts the ring. */
  lemma OneTokenExactly(n: nat, actions: seq<Action>)
    requires 0 < n <= 255 && Run(Joined(n), actions).Some?
    ensures AtMostOneToken(n, actions) <==> NoRestart(actions)
  {
    hide Run, Enabled, Step, Total;
    if NoRestart(actions) {
      forall k: nat | k <= |actions| ensures OneTokenAfter(n, actions[..k]) {
        RunPrefix(n, actions, k);
        NoRestartOneToken(n, actions[..k]);
      }
    } else {
      var k := FirstRestart(actions);
      RunPrefix(n, actions, k + 1);
      LastStep(n, actions, k);
      var s := Run(Joined(n), actions[..k]).value;
      RestartsCounted(n, actions[..k], s);
      RestartMakesTwo(n, actions[..k], s);
      assert !OneTokenAfter(n, actions[..k + 1]);
    }
  }
}
