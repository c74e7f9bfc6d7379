/** Whole runs: whatever the network does, the client's ring holds the server's states. */
module DeltaRuns {
  import opened Snapshots
  import opened DeltaChain
  import opened DeltaSteps
  import S = SyncServer

  /** `s'` is reached from `s` by the actions, in order. */
  ghost predicate Run(s: System, actions: seq<Action>, s': System)
    requires s.H() > 0 && |s.client.received| > 0
    decreases |actions|
  {
    if actions == [] then s' == s
    else Enabled(s, actions[0]) && (var next := Apply(s, actions[0]);
         next.H() > 0 && |next.client.received| > 0 && Run(next, actions[1..], s'))
  }

  /** One action, then the rest. */
  lemma RunCons(s: System, a: Action, rest: seq<Action>, s': System)
    requires s.H() > 0 && |s.client.received| > 0 && Enabled(s, a)
    requires Apply(s, a).H() > 0 && |Apply(s, a).client.received| > 0 && Run(Apply(s, a), rest, s')
    ensures Run(s, [a] + rest, s')
  {
    assert ([a] + rest)[1..] == rest;
  }

  lemma RunOne(s: System, a: Action)
    requires s.H() > 0 && |s.client.received| > 0 && Enabled(s, a)
    requires Apply(s, a).H() > 0 && |Apply(s, a).client.received| > 0
    ensures Run(s, [a], Apply(s, a))
  {
    assert [a][1..] == [];
  }

  /** A run, then another one from where it ends. */
  lemma {:induction false} RunAppends(s: System, xs: seq<Action>, m: System, ys: seq<Action>, s': System)
    requires s.H() > 0 && |s.client.received| > 0 && Run(s, xs, m)
    requires m.H() > 0 && |m.client.received| > 0 && Run(m, ys, s')
    ensures Run(s, xs + ys, s')
    decreases |xs|
  {
    if xs == [] {
      assert xs + ys == ys;
    } else {
      RunAppends(Apply(s, xs[0]), xs[1..], m, ys, s');
      assert xs + ys == [xs[0]] + (xs[1..] + ys);
      RunCons(s, xs[0], xs[1..] + ys, s');
    }
  }

  lemma {:induction false} RunKeeps(s: System, actions: seq<Action>, s': System)
    requires Inv(s) && Run(s, actions, s')
    ensures Inv(s')
    decreases |actions|
  {
    if actions != [] {
      StepKeeps(s, actions[0]);
      RunKeeps(Apply(s, actions[0]), actions[1..], s');
    }
  }

  /** What was logged stays logged. */
  lemma {:induction false} LogOnlyGrows(s: System, actions: seq<Action>, s': System)
    requires Inv(s) && Run(s, actions, s')
    ensures forall f :: f in s.log ==> f in s'.log && s'.log[f] == s.log[f]
    decreases |actions|
  {
    if actions != [] {
      StepKeeps(s, actions[0]);
      LogOnlyGrows(Apply(s, actions[0]), actions[1..], s');
    }
  }

  /** Every state of a valid record of the client's ring is what the server recorded for that object at its frame. */
  ghost predicate IsSound(s: System) {
    forall i :: 0 <= i < |s.client.received| && s.client.received[i].frame.Some? ==>
      s.client.received[i].frame.value in s.log &&
      Faithful(s.client.received[i].states, s.log[s.client.received[i].frame.value])
  }

  /** What a client controls. */
  ghost predicate OwnAreRelevant(s: System) {
    s.server.peer.own <= s.server.live.Keys && s.server.peer.own <= s.server.peer.relevant
  }

  /** In every run, whatever the game says of an object's relevance, a client gets the objects it controls. */
  lemma {:induction false} OwnObjectsStayRelevant(s: System, actions: seq<Action>, s': System)
    requires s.H() > 0 && |s.client.received| > 0 && OwnAreRelevant(s) && Run(s, actions, s')
    ensures OwnAreRelevant(s')
    decreases |actions|
  {
    if actions != [] {
      StepKeepsOwn(s, actions[0]);
      OwnObjectsStayRelevant(Apply(s, actions[0]), actions[1..], s');
    }
  }

  lemma StepKeepsOwn(s: System, a: Action)
    requires s.H() > 0 && |s.client.received| > 0 && OwnAreRelevant(s) && Enabled(s, a)
    ensures OwnAreRelevant(Apply(s, a))
  {
    match a
    case Send(recent, fits) =>
      var peer := S.Send(s.server, recent, fits).0.peer;
      assert peer.own == s.server.peer.own && peer.relevant == s.server.peer.relevant;
    case Unregister(id) => assert S.Unregister(s.server, id).peer.own == s.server.peer.own - {id};
    case SetRelevant(_, _) =>
    case Register(_, _, _, _) =>
    case Simulate(_) =>
    case Jump(_, _) =>
    case Prune(_) =>
    case Acknowledge(_, _) =>
    case Deliver(_) =>
    case DeliverTruncated(_, _) =>
    case DeliverControl =>
    case Bind(_) =>
    case Unbind(_) =>
  }

  /** Delta chain soundness: in every run, with jumps that are safe, every state of a valid record of the client's ring
      is the state the server recorded for that object at the record's frame. */
  lemma ReceivedStatesAreTheServers(s: System, actions: seq<Action>, s': System, i: nat, id: Id)
    requires Initial(s) && Run(s, actions, s')
    requires i < |s'.client.received| && s'.client.received[i].frame.Some? && id in s'.client.received[i].states
    ensures var f := s'.client.received[i].frame.value;
      f in s'.log && id in s'.log[f] && s'.client.received[i].states[id] == s'.log[f][id]
    ensures IsSound(s')
  {
    InitialHolds(s);
    RunKeeps(s, actions, s');
  }

  /** A run, a safe jump and another run. */
  lemma JumpIsSound(s: System, before: seq<Action>, m: System, target: nat, simulated: States, after: seq<Action>,
                    s': System)
    requires Initial(s) && Run(s, before, m) && m.H() > 0 && |m.client.received| > 0
    requires CanSimulate(m, simulated) && m.server.next <= target && IsSafeJump(m, target)
    requires Run(Leap(m, target, simulated), after, s')
    ensures IsSound(s')
  {
    InitialHolds(s);
    RunKeeps(s, before, m);
    LeapKeeps(m, target, simulated);
    RunKeeps(Leap(m, target, simulated), after, s');
    InvIsSound(s');
  }

  lemma InvIsSound(s: System)
    requires Inv(s)
    ensures IsSound(s)
  {}
}
