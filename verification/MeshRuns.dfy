/** What every run of a mesh keeps: no release is lost, versions name one owner and only go up, and replicas
    converge. */
module MeshRuns {
  import opened Frames
  import opened Snapshots
  import opened Ownership
  import opened MeshProtocol

  /** The part of the invariant that doesn't speak of messages for the registry. */
  ghost predicate Ordered(s: Mesh) {
    HoldInv(s) && Chains(s.log, s.gone, s.at, s.down) && forall n :: n in s.ready ==> EntryInv(s, n)
  }

  ghost predicate IsFrozen(s: Mesh, n: Node)
    requires Keyed(s) && n in s.ready
  {
    s.nodes[n].entry.Some? && s.nodes[n].entry.value.frozen
  }

  ghost predicate Waits(s: Mesh)
    requires Keyed(s)
  {
    forall n :: n in s.ready && IsFrozen(s, n) ==> Awaited(s, n)
  }

  lemma InvParts(s: Mesh)
    ensures Inv(s) <==> Ordered(s) && Waits(s)
  {
    if Ordered(s) && Waits(s) {
      forall n | n in s.ready ensures NodeInv(s, n) {
        assert Chain(s.log, s.at[n], s.down[n], End(s));
      }
    }
    if Inv(s) {
      forall n | n in s.down ensures Chain(s.log, s.at[n], s.down[n], End(s)) {
        assert NodeInv(s, n);
      }
      forall n | n in s.ready ensures EntryInv(s, n) && (IsFrozen(s, n) ==> Awaited(s, n)) {
        assert NodeInv(s, n);
      }
    }
  }

  // ------------------------------------------------------------------------------------------------------- Steps

  lemma AnswerKeeps(s: Mesh, a: Answer)
    requires Ordered(s) && AnswerOk(s, a)
    ensures Ordered(TakeAnswer(s, a))
  {
    SendAllKeepsChains(s.count, s.log, s.gone, s.at, s.down, a.outs);
    var s' := TakeAnswer(s, a);
    forall n | n in s'.ready ensures EntryInv(s', n) {
      assert EntryInv(s, n);
    }
  }

  /** A node still waits when its releases and what ends them stay somewhere, or are answered. */
  lemma StillAwaited(s: Mesh, s': Mesh, n: Node)
    requires Keyed(s) && Keyed(s') && n in s.ready && n in s'.ready && Awaited(s, n)
    requires forall m :: m in s.up[n] && m.Release? ==> m in s'.up[n] || Awaited(s', n)
    requires forall m :: (n, m) in s.deferred && m.Release? ==> (n, m) in s'.deferred || Awaited(s', n)
    requires forall m :: m in s.down[n] && Ends(m, n) ==> m in s'.down[n] || Awaited(s', n)
    ensures Awaited(s', n)
  {
    if m :| m in s.up[n] && m.Release? {
    } else if m :| (n, m) in s.deferred && m.Release? {
    } else {
      var m :| m in s.down[n] && Ends(m, n);
    }
  }

  /** Messages to the nodes don't stop anyone from waiting. */
  lemma AnswerKeepsWaits(s: Mesh, a: Answer, n: Node)
    requires Keyed(s) && n in s.ready && Awaited(s, n)
    ensures Awaited(TakeAnswer(s, a), n)
  {
    SendAllDelivers(s.down, a.outs, n);
    StillAwaited(s, TakeAnswer(s, a), n);
  }

  lemma AnswerKeepsInv(s: Mesh, a: Answer)
    requires Inv(s) && AnswerOk(s, a)
    ensures Inv(TakeAnswer(s, a))
  {
    InvParts(s);
    AnswerKeeps(s, a);
    var s' := TakeAnswer(s, a);
    forall n | n in s'.ready && IsFrozen(s', n) ensures Awaited(s', n) {
      AnswerKeepsWaits(s, a, n);
    }
    InvParts(s');
  }

  /** Whether an answer to a release ends it at its node. */
  lemma AnswerEndsRelease(s: Mesh, a: Answer, n: Node)
    requires Keyed(s) && n in s.ready && Answers(a.outs, n)
    ensures Awaited(TakeAnswer(s, a), n)
  {
    SendAllDelivers(s.down, a.outs, n);
    var o :| o in a.outs && (o == To(n, Denied) || (o.ToAll? && o.m.Announce? && o.m.owner != n));
    assert o.m in TakeAnswer(s, a).down[n] && Ends(o.m, n);
  }

  lemma RegistryTakesKeeps(s: Mesh, n: Node, corrected: bool)
    requires Inv(s) && Enabled(s, RegistryTakes(n, corrected))
    ensures Inv(Next(s, RegistryTakes(n, corrected)))
  {
    InvParts(s);
    var m, s1 := s.up[n][0], s.(up := s.up[n := s.up[n][1..]]);
    TakenFromQueues(s, s1);
    TakenUp(s, s1, n);
    if s.phase == Acting {
      HandleOk(s1, n, m, s.ready, s.departed, corrected);
      HandledKeeps(s, s1, n, m, corrected);
    } else {
      PostponeKeeps(s, s1, n, m);
    }
  }

  lemma TakenUp(s: Mesh, s1: Mesh, n: Node)
    requires Keyed(s) && n in s.ready && s.up[n] != [] && s1 == s.(up := s.up[n := s.up[n][1..]])
    ensures forall k, x :: k in s.ready && x in s.up[k] ==> x in s1.up[k] || (k == n && x == s.up[n][0])
  {
    assert s.up[n] == [s.up[n][0]] + s1.up[n];
  }

  lemma TakenFromQueues(s: Mesh, s1: Mesh)
    requires Ordered(s) && Keyed(s1) && s1 == s.(up := s1.up, deferred := s1.deferred)
    ensures Ordered(s1)
  {
    forall n | n in s1.ready ensures EntryInv(s1, n) {
      assert EntryInv(s, n);
    }
  }

  lemma HandledKeeps(s: Mesh, s1: Mesh, n: Node, m: ToRegistry, corrected: bool)
    requires HoldInv(s) && Ordered(s1) && Waits(s) && n in s.ready && s.phase == Acting
    requires s1 == s.(up := s1.up, deferred := s1.deferred)
    requires forall k, x :: k in s.ready && x in s.up[k] ==> x in s1.up[k] || (k == n && x == m)
    requires forall k, x :: (k, x) in s.deferred ==> (k, x) in s1.deferred || (k == n && x == m)
    requires AnswerOk(s1, Handle(s.hold, n, m, s.ready, s.departed, corrected))
    ensures Inv(TakeAnswer(s1, Handle(s.hold, n, m, s.ready, s.departed, corrected)))
  {
    HandleAnswers(s.hold, n, m, s.ready, s.departed, corrected);
    AnsweredKeeps(s, s1, n, m, Handle(s.hold, n, m, s.ready, s.departed, corrected));
  }

  lemma HandleAnswers(hold: Option<Hold>, n: Node, m: ToRegistry, ready: set<Node>, departed: set<Node>,
                      corrected: bool)
    requires (hold.Some? ==> hold.value.Valid()) && 0 !in ready && n in ready
    ensures m.Release? ==> Answers(Handle(hold, n, m, ready, departed, corrected).outs, n)
  {
    if m.Release? { ReleaseIsAnswered(hold, n, m.version, m.to, ready); }
  }

  lemma DenialAnswers(ready: set<Node>, n: Node)
    requires n > 0 && n in ready
    ensures Answers(Deny(ready, n), n)
  {
    assert To(n, Denied) in Deny(ready, n);
  }

  lemma AnsweredKeeps(s: Mesh, s1: Mesh, n: Node, m: ToRegistry, a: Answer)
    requires HoldInv(s) && Ordered(s1) && Waits(s) && n in s.ready
    requires s1 == s.(up := s1.up, deferred := s1.deferred)
    requires forall k, x :: k in s.ready && x in s.up[k] ==> x in s1.up[k] || (k == n && x == m)
    requires forall k, x :: (k, x) in s.deferred ==> (k, x) in s1.deferred || (k == n && x == m)
    requires AnswerOk(s1, a) && (m.Release? ==> Answers(a.outs, n))
    ensures Inv(TakeAnswer(s1, a))
  {
    var s' := TakeAnswer(s1, a);
    AnswerKeeps(s1, a);
    if m.Release? { AnswerEndsRelease(s1, a, n); }
    forall k | k in s'.ready && IsFrozen(s', k) ensures Awaited(s', k) {
      assert IsFrozen(s, k);
      SendAllDelivers(s1.down, a.outs, k);
      StillAwaited(s, s', k);
    }
    InvParts(s');
  }

  /** A release the registry can't take waits for it, or is refused. */
  lemma PostponeKeeps(s: Mesh, s1: Mesh, n: Node, m: ToRegistry)
    requires Inv(s) && Ordered(s1) && Waits(s) && n in s.ready && s1 == s.(up := s1.up)
    requires forall k, x :: k in s.ready && x in s.up[k] ==> x in s1.up[k] || (k == n && x == m)
    ensures Inv(Postpone(s1, n, m))
  {
    var deferred := s1.(deferred := s1.deferred + [(n, m)]);
    if Postpone(s1, n, m) == deferred {
      TakenFromQueues(s1, deferred);
      assert (n, m) in deferred.deferred;
      forall k | k in deferred.ready && IsFrozen(deferred, k) ensures Awaited(deferred, k) {
        assert IsFrozen(s, k);
        StillAwaited(s, deferred, k);
      }
      InvParts(deferred);
    } else {
      RefusedKeeps(s, s1, n, m);
    }
  }

  lemma RefusedKeeps(s: Mesh, s1: Mesh, n: Node, m: ToRegistry)
    requires Inv(s) && Ordered(s1) && Waits(s) && n in s.ready && s1 == s.(up := s1.up)
    requires forall k, x :: k in s.ready && x in s.up[k] ==> x in s1.up[k] || (k == n && x == m)
    ensures Inv(s1.(down := SendAll(s1.down, if m.Release? then Deny(s1.ready, n) else [])))
  {
    var outs := if m.Release? then Deny(s1.ready, n) else [];
    DeniedOk(s1, s1.hold, s1.ready, n);
    DenyOk(s1.count, s1.log, s1.gone, s1.ready, n);
    NothingOk(s1.count, s1.log, s1.gone);
    OnlyTold(s1, outs);
    if m.Release? { DenialAnswers(s1.ready, n); }
    AnsweredKeeps(s, s1, n, m, Answer(s1.hold, outs));
  }

  lemma OnlyTold(s: Mesh, outs: seq<Out>)
    requires Written(s.count, outs) == []
    ensures TakeAnswer(s, Answer(s.hold, outs)) == s.(down := SendAll(s.down, outs))
  {
    assert s.log + [] == s.log;
  }

  lemma RegistryTakesDeferredKeeps(s: Mesh, corrected: bool)
    requires Inv(s) && Enabled(s, RegistryTakesDeferred(corrected))
    ensures Inv(Next(s, RegistryTakesDeferred(corrected)))
  {
    InvParts(s);
    var (n, m) := s.deferred[0];
    var s1 := s.(deferred := s.deferred[1..]);
    assert s.deferred == [(n, m)] + s1.deferred;
    assert Ordered(s1) by { TakenFromQueues(s, s1); }
    if n in s.ready {
      HandleOk(s1, n, m, s.ready, s.departed, corrected);
      HandledKeeps(s, s1, n, m, corrected);
    } else {
      forall k | k in s1.ready && IsFrozen(s1, k) ensures Awaited(s1, k) {
        assert IsFrozen(s, k);
        StillAwaited(s, s1, k);
      }
      InvParts(s1);
    }
  }

  /** The registry's next announcement is never old news: the node takes it. */
  lemma NextIsNews(log: seq<Version>, at: Place, r: Replica, owner: Node, version: nat)
    requires Spaced(log) && !at.Gone? && (at.Before? && r.entry.Some? ==> !r.entry.value.announced)
    requires at.Taken? ==> 0 < at.k <= |log| && r.entry.Some? && r.entry.value.version == Serial(log[at.k - 1].count)
    requires Names(log, After(log, at, Announce(owner, version)).k, owner, version)
    ensures !IsOld(r, version)
  {
    if at.Taken? && at.k < |log| {
      assert Gap(log, at.k);
      SerialNewerIsOrder(log[at.k].count, log[at.k - 1].count);
    }
  }

  lemma TakeKeepsEntry(s: Mesh, s': Mesh, n: Node, approved: bool)
    requires Ordered(s) && n in s.ready && s.down[n] != [] && Keyed(s')
    requires s' == s.(nodes := s'.nodes, up := s'.up, down := s'.down, at := s'.at)
    requires s'.nodes[n] == Take(s.nodes[n], n, s.down[n][0], approved).0
    requires s'.at[n] == After(s.log, s.at[n], s.down[n][0])
    ensures EntryInv(s', n)
  {
    var m := s.down[n][0];
    assert EntryInv(s, n);
    assert Chain(s.log, s.at[n], s.down[n], End(s));
    if m.Announce? {
      NextIsNews(s.log, s.at[n], s.nodes[n], m.owner, m.version);
    }
  }

  /** What ends a release thaws the object. */
  lemma EndsThaws(s: Mesh, n: Node, approved: bool)
    requires Ordered(s) && n in s.ready && s.down[n] != [] && Ends(s.down[n][0], n)
    ensures var r := Take(s.nodes[n], n, s.down[n][0], approved).0; r.entry.Some? ==> !r.entry.value.frozen
  {
    var m := s.down[n][0];
    assert EntryInv(s, n);
    assert Chain(s.log, s.at[n], s.down[n], End(s));
    if m.Announce? {
      NextIsNews(s.log, s.at[n], s.nodes[n], m.owner, m.version);
    }
  }

  lemma NodeTakesKeeps(s: Mesh, n: Node, approved: bool)
    requires Inv(s) && n in s.ready && s.down[n] != []
    ensures Inv(NodeTake(s, n, approved))
  {
    InvParts(s);
    var s' := NodeTake(s, n, approved);
    assert Keyed(s');
    TakeKeepsOrder(s, s', n, approved);
    TakeKeepsWaits(s, s', n, approved);
    InvParts(s');
  }

  lemma TakeKeepsWaits(s: Mesh, s': Mesh, n: Node, approved: bool)
    requires Ordered(s) && Waits(s) && n in s.ready && s.down[n] != [] && Keyed(s') && s'.ready == s.ready
    requires s'.nodes == s.nodes[n := Take(s.nodes[n], n, s.down[n][0], approved).0]
    requires s'.up == s.up[n := s.up[n] + Take(s.nodes[n], n, s.down[n][0], approved).1]
    requires s'.down == s.down[n := s.down[n][1..]] && s'.deferred == s.deferred
    ensures Waits(s')
  {
    assert s.down[n] == [s.down[n][0]] + s'.down[n];
    if Ends(s.down[n][0], n) { EndsThaws(s, n, approved); }
    forall k | k in s'.ready && IsFrozen(s', k) ensures Awaited(s', k) {
      TakeStillWaits(s, s', n, k, approved);
    }
  }

  lemma TakeKeepsOrder(s: Mesh, s': Mesh, n: Node, approved: bool)
    requires Ordered(s) && n in s.ready && s.down[n] != [] && Keyed(s') && s'.ready == s.ready
    requires s' == s.(nodes := s.nodes[n := s'.nodes[n]], up := s'.up, down := s.down[n := s.down[n][1..]],
                      at := s.at[n := After(s.log, s.at[n], s.down[n][0])])
    requires s'.nodes[n] == Take(s.nodes[n], n, s.down[n][0], approved).0
    ensures Ordered(s')
  {
    TakeKeepsEntry(s, s', n, approved);
    forall k | k in s'.ready ensures EntryInv(s', k) {
      if k != n { SameEntry(s, s', k); }
    }
    forall k | k in s'.down ensures Chain(s'.log, s'.at[k], s'.down[k], End(s')) {
      assert Chain(s.log, s.at[k], s.down[k], End(s));
    }
    assert HoldInv(s');
  }

  lemma SameEntry(s: Mesh, s': Mesh, k: Node)
    requires Keyed(s) && Keyed(s') && k in s.ready && k in s'.ready && EntryInv(s, k)
    requires s'.nodes[k] == s.nodes[k] && s'.at[k] == s.at[k] && s'.log == s.log
    ensures EntryInv(s', k)
  {}

  lemma TakeStillWaits(s: Mesh, s': Mesh, n: Node, k: Node, approved: bool)
    requires Keyed(s) && Keyed(s') && Waits(s) && n in s.ready && s'.ready == s.ready && k in s.ready && s.down[n] != []
    requires s'.nodes[n] == Take(s.nodes[n], n, s.down[n][0], approved).0
    requires s'.up[n] == s.up[n] + Take(s.nodes[n], n, s.down[n][0], approved).1
    requires s.down[n] == [s.down[n][0]] + s'.down[n] && s'.deferred == s.deferred
    requires k != n ==> s'.nodes[k] == s.nodes[k] && s'.up[k] == s.up[k] && s'.down[k] == s.down[k]
    requires IsFrozen(s', k) && (k == n ==> !Ends(s.down[n][0], n))
    ensures Awaited(s', k)
  {
    if IsFrozen(s, k) {
      StillAwaited(s, s', k);
    } else {
      var m := s.down[n][0];
      assert k == n && m.Transfer?;
      assert Release(m.version, m.to) in s'.up[n];
    }
  }

  lemma GameAsksKeeps(s: Mesh, n: Node, ask: Ask)
    requires Inv(s) && Enabled(s, GameAsks(n, ask))
    ensures Inv(Next(s, GameAsks(n, ask)))
  {
    InvParts(s);
    var s' := Next(s, GameAsks(n, ask));
    forall k | k in s'.ready ensures EntryInv(s', k) {
      assert EntryInv(s, k);
      if k != n { SameEntry(s, s', k); } else { AskKeepsEntry(s, s', n, ask); }
    }
    assert Ordered(s');
    forall k | k in s'.ready && IsFrozen(s', k) ensures Awaited(s', k) {
      AskStillWaits(s, s', n, k, ask);
    }
    InvParts(s');
  }

  lemma AskKeepsEntry(s: Mesh, s': Mesh, n: Node, ask: Ask)
    requires Keyed(s) && Keyed(s') && n in s.ready && n in s'.ready && EntryInv(s, n)
    requires s'.nodes[n] == TakeAsk(s.nodes[n], n, ask).0
    requires s'.at[n] == s.at[n] && s'.log == s.log
    ensures EntryInv(s', n)
  {}

  lemma AskStillWaits(s: Mesh, s': Mesh, n: Node, k: Node, ask: Ask)
    requires Keyed(s) && Keyed(s') && Waits(s) && n in s.ready && s'.ready == s.ready && k in s.ready
    requires s'.nodes[n] == TakeAsk(s.nodes[n], n, ask).0 && s'.up[n] == s.up[n] + TakeAsk(s.nodes[n], n, ask).1
    requires s'.down == s.down && s'.deferred == s.deferred
    requires k != n ==> s'.nodes[k] == s.nodes[k] && s'.up[k] == s.up[k]
    requires IsFrozen(s', k)
    ensures Awaited(s', k)
  {
    if IsFrozen(s, k) {
      StillAwaited(s, s', k);
    } else {
      assert k == n && ask.AskRelease?;
      assert Release(s.nodes[n].entry.value.version, ask.to) in s'.up[n];
    }
  }

  lemma ClaimsObjectKeeps(s: Mesh, n: Node, owner: Node)
    requires Inv(s) && Enabled(s, ClaimsObject(n, owner))
    ensures Inv(Next(s, ClaimsObject(n, owner)))
  {
    InvParts(s);
    var s' := Next(s, ClaimsObject(n, owner));
    TakenFromQueues(s, s');
    forall k | k in s'.ready && IsFrozen(s', k) ensures Awaited(s', k) {
      assert IsFrozen(s, k);
      StillAwaited(s, s', k);
    }
    InvParts(s');
  }

  /** Steps that change neither the nodes nor the queues. */
  lemma SameQueuesKeeps(s: Mesh, s': Mesh)
    requires Inv(s) && HoldInv(s')
    requires s' == s.(phase := s'.phase, orphanCheck := s'.orphanCheck, samples := s'.samples, hold := s'.hold,
                      count := s'.count)
    ensures Inv(s')
  {
    InvParts(s);
    forall n | n in s'.ready ensures EntryInv(s', n) && Chain(s'.log, s'.at[n], s'.down[n], End(s')) {
      SameEntry(s, s', n);
      assert Chain(s.log, s.at[n], s.down[n], End(s));
    }
    forall k | k in s'.ready && IsFrozen(s', k) ensures Awaited(s', k) {
      assert IsFrozen(s, k);
      StillAwaited(s, s', k);
    }
    InvParts(s');
  }

  lemma FinishesTakeOverKeeps(s: Mesh)
    requires Inv(s) && Enabled(s, FinishesTakeOver)
    ensures Inv(Next(s, FinishesTakeOver))
  {
    if s.hold.None? {
      SameQueuesKeeps(s, s.(phase := Waiting, orphanCheck := false));
    } else {
      AnnounceAgainKeeps(s, s.(phase := Waiting, orphanCheck := false));
    }
  }

  /** However far the record was ahead of what was announced, it isn't once it is announced again. */
  lemma AnnounceAgainKeeps(s: Mesh, s': Mesh)
    requires Inv(s) && ValidHold(s) && s.hold.Some? && s' == s.(phase := s'.phase, orphanCheck := s'.orphanCheck)
    ensures Inv(AnnounceAgain(s'))
  {
    var owner := if s.hold.value.owner in s.ready then s.hold.value.owner else 0;
    var a := ChangeOwner(s.hold.value, owner, s.ready);
    ChangeOwnerOk(s, owner, s.ready);
    AnswerKeepsInv(s, a);
    AnnouncedIsInStep(s, owner, a);
    InStepAnyPhase(TakeAnswer(s, a), s'.phase, s'.orphanCheck);
    SamePhases(s, s', a);
  }

  lemma SamePhases(s: Mesh, s': Mesh, a: Answer)
    requires s' == s.(phase := s'.phase, orphanCheck := s'.orphanCheck)
    ensures TakeAnswer(s', a) == TakeAnswer(s, a).(phase := s'.phase, orphanCheck := s'.orphanCheck)
  {}

  lemma InStepAnyPhase(s: Mesh, phase: Phase, orphanCheck: bool)
    requires Inv(s) && s.hold.Some? && InStep(s)
    ensures Inv(s.(phase := phase, orphanCheck := orphanCheck))
  {
    SameQueuesKeeps(s, s.(phase := phase, orphanCheck := orphanCheck));
  }

  lemma AnnouncedIsInStep(s: Mesh, owner: Node, a: Answer)
    requires HoldInv(s) && Written(s.count, a.outs) == [Version(owner, s.count + 1)] && a.hold.Some?
      && a.hold.value.owner == owner
    ensures TakeAnswer(s, a).hold.Some? && InStep(TakeAnswer(s, a))
  {}

  /** A node's view is merged while nothing says the record was announced. */
  lemma MergeKeeps(s: Mesh, owner: Node, count: nat)
    requires Inv(s) && ValidHold(s) && !s.gone && InWindow(s, count)
    ensures Inv(Merge(s, owner, count).(phase := Settling))
  {
    var s0 := s.(phase := Settling);
    SameQueuesKeeps(s, s0);
    if IsNews(s, count) {
      var a := MergeReport(s.hold, owner, Serial(count), s.ready);
      if s.hold.Some? { SerialNewerIsOrder(count, s.count); }
      ToldKeeps(s0, a.outs);
      var told := TakeAnswer(s0, Answer(s0.hold, a.outs));
      SameQueuesKeeps(told, told.(hold := a.hold, count := count));
      assert Merge(s, owner, count).(phase := Settling) == told.(hold := a.hold, count := count);
    }
  }

  lemma ToldKeeps(s: Mesh, outs: seq<Out>)
    requires Inv(s) && (outs == [] || exists n :: outs == Deny(s.ready, n))
    ensures Inv(TakeAnswer(s, Answer(s.hold, outs))) && Written(s.count, outs) == []
  {
    if n :| outs == Deny(s.ready, n) {
      DenyOk(s.count, s.log, s.gone, s.ready, n);
      DeniedOk(s, s.hold, s.ready, n);
    } else {
      DeniedOk(s, s.hold, s.ready, 0);
    }
    AnswerKeepsInv(s, Answer(s.hold, outs));
  }

  lemma TakesReportKeeps(s: Mesh, n: Node, owner: Node, count: nat, last: bool)
    requires Inv(s) && Enabled(s, TakesReport(n, owner, count, last))
    ensures Inv(Next(s, TakesReport(n, owner, count, last)))
  {
    MergeKeeps(s, owner, count);
    if s.phase == Settling {
      assert Merge(s, owner, count) == Merge(s, owner, count).(phase := Settling);
    } else if IsNews(s, count) {
      LateReportKeeps(s, owner, count);
      AnswerReportKeeps(AnnounceAgain(Merge(s, owner, count)), n, last);
    } else {
      AnswerReportKeeps(s, n, last);
    }
  }

  lemma LateReportKeeps(s: Mesh, owner: Node, count: nat)
    requires Inv(s) && ValidHold(s) && !s.gone && InWindow(s, count) && IsNews(s, count)
    ensures Inv(AnnounceAgain(Merge(s, owner, count)))
  {
    var merged := Merge(s, owner, count);
    MergeKeeps(s, owner, count);
    AnnounceAgainKeeps(merged.(phase := Settling), merged);
  }

  lemma AnswerReportKeeps(s: Mesh, n: Node, last: bool)
    requires Inv(s) && s.phase == Acting
    ensures Inv(AnswerReport(s, n, last))
  {
    if last && s.hold.Some? {
      AskedOk(s, s.hold.value, To(n, Announce(s.hold.value.owner, s.hold.value.version)));
      AnswerKeepsInv(s, Answer(s.hold, [To(n, Announce(s.hold.value.owner, s.hold.value.version))]));
    }
  }

  lemma ResumesKeeps(s: Mesh)
    requires Inv(s) && Enabled(s, Resumes)
    ensures Inv(Next(s, Resumes))
  {
    var s0 := s.(phase := Acting, orphanCheck := false);
    SameQueuesKeeps(s, s0);
    if s.orphanCheck && s.hold.Some? {
      var h := s.hold.value;
      var pending := if h.pendingTo.Some? then h.pendingTo.value else 0;
      LoseNodeKeeps(s0, h.owner);
      LoseNodeKeeps(LoseNode(s0, h.owner), pending);
      LoseNodeKeeps(LoseNode(LoseNode(s0, h.owner), pending), h.requester);
    }
  }

  lemma LoseNodeKeeps(s: Mesh, n: Node)
    requires Inv(s) && ValidHold(s)
    ensures Inv(LoseNode(s, n)) && LoseNode(s, n).phase == s.phase
  {
    PeerLeftOk(s, n, s.ready);
    AnswerKeepsInv(s, PeerLeft(s.hold, n, s.ready));
  }

  lemma LeavesKeeps(s: Mesh, n: Node, quorum: bool)
    requires Inv(s) && Enabled(s, Leaves(n, quorum))
    ensures Inv(Next(s, Leaves(n, quorum)))
  {
    var s1 := s.(ready := s.ready - {n}, departed := s.departed + {n}, nodes := s.nodes - {n}, up := s.up - {n},
                 down := s.down - {n}, at := s.at - {n});
    WithoutNodeKeeps(s, s1, n);
    if quorum {
      PeerLeftOk(s1, n, s1.ready);
      AnswerKeepsInv(s1, PeerLeft(s1.hold, n, s1.ready));
    } else {
      SameQueuesKeeps(s1, s1.(orphanCheck := true));
    }
  }

  lemma WithoutNodeKeeps(s: Mesh, s1: Mesh, n: Node)
    requires Inv(s) && n != s.local
    requires s1 == s.(ready := s.ready - {n}, departed := s.departed + {n}, nodes := s.nodes - {n}, up := s.up - {n},
                      down := s.down - {n}, at := s.at - {n})
    ensures Inv(s1)
  {
    InvParts(s);
    assert Keyed(s1);
    forall k | k in s1.ready ensures EntryInv(s1, k) {
      SameEntry(s, s1, k);
    }
    forall k | k in s1.down ensures Chain(s1.log, s1.at[k], s1.down[k], End(s1)) {
      assert Chain(s.log, s.at[k], s.down[k], End(s));
    }
    forall k | k in s1.ready && IsFrozen(s1, k) ensures Awaited(s1, k) {
      assert IsFrozen(s, k);
      StillAwaited(s, s1, k);
    }
    InvParts(s1);
  }

  /** A node that joins gets the last version, which is the record. */
  lemma JoinsKeeps(s: Mesh, n: Node, known: Option<Ownership.Entry>)
    requires Inv(s) && Enabled(s, Joins(n, known))
    ensures Inv(Next(s, Joins(n, known)))
  {
    var s' := Next(s, Joins(n, known));
    InvParts(s);
    JoinsHold(s, s', n, known);
    JoinerChain(s, n, known);
    JoinsOthers(s, s', n);
    InvParts(s');
  }

  lemma JoinsHold(s: Mesh, s': Mesh, n: Node, known: Option<Ownership.Entry>)
    requires HoldInv(s) && Enabled(s, Joins(n, known)) && s' == Next(s, Joins(n, known))
    ensures Keyed(s') && HoldInv(s') && EntryInv(s', n) && !IsFrozen(s', n) && End(s') == End(s)
    ensures s' == s.(ready := s.ready + {n}, nodes := s.nodes[n := s'.nodes[n]], up := s.up[n := []],
                     down := s.down[n := s'.down[n]], at := s.at[n := s'.at[n]])
  {
    assert Keyed(s') && s'.log == s.log && s'.hold == s.hold;
  }

  lemma JoinsOthers(s: Mesh, s': Mesh, n: Node)
    requires Ordered(s) && Waits(s) && n !in s.ready && Keyed(s') && n in s'.ready && HoldInv(s')
    requires s' == s.(ready := s.ready + {n}, nodes := s.nodes[n := s'.nodes[n]], up := s.up[n := []],
                      down := s.down[n := s'.down[n]], at := s.at[n := s'.at[n]])
    requires EntryInv(s', n) && Chain(s'.log, s'.at[n], s'.down[n], End(s')) && !IsFrozen(s', n)
    ensures Ordered(s') && Waits(s')
  {
    forall k | k in s'.ready ensures EntryInv(s', k) {
      if k != n { SameEntry(s, s', k); }
    }
    forall k | k in s'.down ensures Chain(s'.log, s'.at[k], s'.down[k], End(s')) {
      if k != n { assert Chain(s.log, s.at[k], s.down[k], End(s)); }
    }
    forall k | k in s'.ready && IsFrozen(s', k) ensures Awaited(s', k) {
      assert IsFrozen(s, k);
      StillAwaited(s, s', k);
    }
  }

  lemma JoinerChain(s: Mesh, n: Node, known: Option<Ownership.Entry>)
    requires HoldInv(s) && Enabled(s, Joins(n, known))
    ensures var s' := Next(s, Joins(n, known));
      n in s'.at && n in s'.down && Chain(s'.log, s'.at[n], s'.down[n], End(s'))
  {
    if s.hold.Some? {
      var told := [Announce(s.hold.value.owner, s.hold.value.version)];
      assert told[1..] == [];
    }
  }

  lemma TimesOutKeeps(s: Mesh)
    requires Inv(s) && ValidHold(s)
    ensures Inv(Next(s, TimesOut))
  {
    DeniedOk(s, s.hold, s.ready, 0);
    if s.hold.Some? {
      DeniedOk(s, Some(s.hold.value.(pendingTo := None, requester := 0)), s.ready, s.hold.value.requester);
    }
    AnswerKeepsInv(s, TimeOut(s.hold, s.ready));
  }

  lemma SendsStateKeeps(s: Mesh, n: Node)
    requires Inv(s) && Enabled(s, SendsState(n))
    ensures Inv(Next(s, SendsState(n)))
  {
    SameQueuesKeeps(s, s.(samples := Next(s, SendsState(n)).samples));
  }

  lemma StepKeeps(s: Mesh, step: Step)
    requires Inv(s) && Enabled(s, step)
    ensures Inv(Next(s, step))
  {
    match step
    case GameAsks(n, ask) => GameAsksKeeps(s, n, ask);
    case RegistryTakes(n, corrected) => RegistryTakesKeeps(s, n, corrected);
    case RegistryTakesDeferred(corrected) => RegistryTakesDeferredKeeps(s, corrected);
    case NodeTakes(n, approved) => NodeTakesKeeps(s, n, approved);
    case ClaimsObject(n, owner) => ClaimsObjectKeeps(s, n, owner);
    case TimesOut => TimesOutKeeps(s);
    case TakesReport(n, owner, count, last) => TakesReportKeeps(s, n, owner, count, last);
    case FinishesTakeOver => FinishesTakeOverKeeps(s);
    case Resumes => ResumesKeeps(s);
    case Leaves(n, quorum) => LeavesKeeps(s, n, quorum);
    case Joins(n, known) => JoinsKeeps(s, n, known);
    case SendsState(n) => SendsStateKeeps(s, n);
    case LosesQuorum => SameQueuesKeeps(s, s.(phase := Waiting));
  }

  // -------------------------------------------------------------------------------------------------- Whole runs

  ghost predicate SampleOk(s: Mesh, x: Sample) {
    !x.at.Gone? && (x.at.Taken? ==> Names(s.log, x.at.k, x.from, x.version))
  }

  /** What was sent as the state of an owner: under the version it had taken, as that version's owner. */
  ghost predicate SamplesOk(s: Mesh) {
    forall x :: x in s.samples ==> SampleOk(s, x)
  }

  predicate NotBack(at: Place, at': Place) {
    !at'.Gone? ==> !at.Gone? && at.k <= at'.k && (at.Taken? ==> at'.Taken?)
  }

  /** History is only added to, and no node goes back to an older version. */
  ghost predicate Forward(s: Mesh, s': Mesh)
    requires Keyed(s) && Keyed(s')
  {
    && s.log <= s'.log && (s.gone ==> s'.gone)
    && s.departed <= s'.departed && s.ready - s'.ready <= s'.departed
    && forall n :: n in s.ready && n in s'.ready ==> NotBack(s.at[n], s'.at[n])
  }

  lemma LoseNodeIsForward(s: Mesh, n: Node)
    requires Keyed(s) && ValidHold(s)
    ensures Keyed(LoseNode(s, n)) && Forward(s, LoseNode(s, n))
    ensures LoseNode(s, n).samples == s.samples
  {}

  lemma OrphanGoneIsForward(s: Mesh)
    requires Keyed(s) && ValidHold(s)
    ensures Keyed(OrphanGone(s)) && Forward(s, OrphanGone(s))
    ensures OrphanGone(s).samples == s.samples
  {
    if s.hold.Some? {
      var h := s.hold.value;
      var pending := if h.pendingTo.Some? then h.pendingTo.value else 0;
      LoseNodeIsForward(s, h.owner);
      LoseNodeIsForward(LoseNode(s, h.owner), pending);
      LoseNodeIsForward(LoseNode(LoseNode(s, h.owner), pending), h.requester);
    }
  }

  lemma AnswerIsForward(s: Mesh, s1: Mesh, a: Answer)
    requires Keyed(s) && Keyed(s1) && Forward(s, s1)
    ensures Keyed(TakeAnswer(s1, a)) && Forward(s, TakeAnswer(s1, a)) && TakeAnswer(s1, a).samples == s1.samples
  {}

  /** The steps the registry doesn't answer. */
  lemma QuietStepIsForward(s: Mesh, step: Step)
    requires Inv(s) && Enabled(s, step) && Keyed(Next(s, step))
    requires step.GameAsks? || step.ClaimsObject? || step.SendsState? || step.LosesQuorum?
    ensures Forward(s, Next(s, step)) && (step.SendsState? || Next(s, step).samples == s.samples)
  {}

  lemma JoinsIsForward(s: Mesh, n: Node, known: Option<Ownership.Entry>)
    requires HoldInv(s) && Enabled(s, Joins(n, known)) && Keyed(Next(s, Joins(n, known)))
    ensures Forward(s, Next(s, Joins(n, known))) && Next(s, Joins(n, known)).samples == s.samples
  {
    var s' := Next(s, Joins(n, known));
    assert s'.at == s.at[n := StartOf(s)] && s'.log == s.log && s'.departed == s.departed && s'.gone == s.gone;
  }

  lemma NodeTakesIsForward(s: Mesh, n: Node, approved: bool)
    requires Keyed(s) && n in s.ready && s.down[n] != []
    ensures var s' := NodeTake(s, n, approved); Keyed(s') && Forward(s, s') && s'.samples == s.samples
  {
    var s' := NodeTake(s, n, approved);
    forall k | k in s'.ready ensures NotBack(s.at[k], s'.at[k]) {
      assert s'.at[k] == if k == n then After(s.log, s.at[n], s.down[n][0]) else s.at[k];
    }
  }

  lemma LeavesIsForward(s: Mesh, n: Node, quorum: bool)
    requires Inv(s) && Enabled(s, Leaves(n, quorum)) && Keyed(Next(s, Leaves(n, quorum)))
    ensures Forward(s, Next(s, Leaves(n, quorum))) && Next(s, Leaves(n, quorum)).samples == s.samples
  {
    var s1 := s.(ready := s.ready - {n}, departed := s.departed + {n}, nodes := s.nodes - {n}, up := s.up - {n},
                 down := s.down - {n}, at := s.at - {n});
    assert Keyed(s1) && Forward(s, s1);
    AnswerIsForward(s, s1, PeerLeft(s.hold, n, s1.ready));
  }

  lemma TakesReportIsForward(s: Mesh, n: Node, owner: Node, count: nat, last: bool)
    requires Inv(s) && Enabled(s, TakesReport(n, owner, count, last))
      && Keyed(Next(s, TakesReport(n, owner, count, last)))
    ensures Forward(s, Next(s, TakesReport(n, owner, count, last)))
    ensures Next(s, TakesReport(n, owner, count, last)).samples == s.samples
  {
    MergeIsForward(s, owner, count);
    if s.phase == Acting {
      AnswerReportIsForward(s, if IsNews(s, count) then AnnounceAgain(Merge(s, owner, count)) else s, n, last);
    }
  }

  lemma MergeIsForward(s: Mesh, owner: Node, count: nat)
    requires Keyed(s) && ValidHold(s) && 0 < count
    ensures Keyed(Merge(s, owner, count)) && Forward(s, Merge(s, owner, count))
    ensures Merge(s, owner, count).samples == s.samples
    ensures var s' := AnnounceAgain(Merge(s, owner, count)); Keyed(s') && Forward(s, s') && s'.samples == s.samples
  {
    AnswerIsForward(s, s, MergeReport(s.hold, owner, Serial(count), s.ready));
    var merged := Merge(s, owner, count);
    assert Keyed(merged) && Forward(s, merged);
    var h := merged.hold.value;
    AnswerIsForward(s, merged, ChangeOwner(h, if h.owner in s.ready then h.owner else 0, s.ready));
  }

  lemma AnswerReportIsForward(s: Mesh, s1: Mesh, n: Node, last: bool)
    requires Keyed(s) && Keyed(s1) && Forward(s, s1) && s1.samples == s.samples
    ensures Keyed(AnswerReport(s1, n, last)) && Forward(s, AnswerReport(s1, n, last))
    ensures AnswerReport(s1, n, last).samples == s.samples
  {
    if s1.hold.Some? {
      AnswerIsForward(s, s1, Answer(s1.hold, [To(n, Announce(s1.hold.value.owner, s1.hold.value.version))]));
    }
  }

  lemma RegistryTakesIsForward(s: Mesh, n: Node, corrected: bool)
    requires Inv(s) && Enabled(s, RegistryTakes(n, corrected)) && Keyed(Next(s, RegistryTakes(n, corrected)))
    ensures Forward(s, Next(s, RegistryTakes(n, corrected)))
    ensures Next(s, RegistryTakes(n, corrected)).samples == s.samples
  {
    var m, s1 := s.up[n][0], s.(up := s.up[n := s.up[n][1..]]);
    QueuesAreForward(s, s1);
    if s.phase == Acting {
      AnswerIsForward(s, s1, Handle(s.hold, n, m, s.ready, s.departed, corrected));
    } else {
      QueuesAreForward(s, Postpone(s1, n, m));
    }
  }

  lemma QueuesAreForward(s: Mesh, s1: Mesh)
    requires Keyed(s) && Keyed(s1) && s1 == s.(up := s1.up, down := s1.down, deferred := s1.deferred)
    ensures Forward(s, s1)
  {}

  lemma RegistryTakesDeferredIsForward(s: Mesh, corrected: bool)
    requires Inv(s) && Enabled(s, RegistryTakesDeferred(corrected)) && Keyed(Next(s, RegistryTakesDeferred(corrected)))
    ensures Forward(s, Next(s, RegistryTakesDeferred(corrected)))
    ensures Next(s, RegistryTakesDeferred(corrected)).samples == s.samples
  {
    var (n, m) := s.deferred[0];
    var s1 := s.(deferred := s.deferred[1..]);
    QueuesAreForward(s, s1);
    AnswerIsForward(s, s1, Handle(s.hold, n, m, s.ready, s.departed, corrected));
  }

  /** The steps in which the registry acts by itself. */
  lemma RegistryActsIsForward(s: Mesh, step: Step)
    requires Inv(s) && Enabled(s, step) && Keyed(Next(s, step))
    requires step.TimesOut? || step.FinishesTakeOver? || step.Resumes?
    ensures Forward(s, Next(s, step)) && Next(s, step).samples == s.samples
  {
    if step.TimesOut? {
      AnswerIsForward(s, s, TimeOut(s.hold, s.ready));
    } else if step.Resumes? {
      OrphanGoneIsForward(s.(phase := Acting, orphanCheck := false));
    } else if s.hold.Some? {
      var owner := if s.hold.value.owner in s.ready then s.hold.value.owner else 0;
      AnswerIsForward(s, s.(phase := Waiting, orphanCheck := false), ChangeOwner(s.hold.value, owner, s.ready));
    }
  }

  lemma StepIsForward(s: Mesh, step: Step)
    requires Inv(s) && Enabled(s, step) && Keyed(Next(s, step))
    ensures Forward(s, Next(s, step)) && (step.SendsState? || Next(s, step).samples == s.samples)
  {
    match step
    case RegistryTakes(n, corrected) => RegistryTakesIsForward(s, n, corrected);
    case RegistryTakesDeferred(corrected) => RegistryTakesDeferredIsForward(s, corrected);
    case NodeTakes(n, approved) => NodeTakesIsForward(s, n, approved);
    case Leaves(n, quorum) => LeavesIsForward(s, n, quorum);
    case Joins(n, known) => JoinsIsForward(s, n, known);
    case TakesReport(n, owner, count, last) => TakesReportIsForward(s, n, owner, count, last);
    case TimesOut => RegistryActsIsForward(s, step);
    case Resumes => RegistryActsIsForward(s, step);
    case FinishesTakeOver => RegistryActsIsForward(s, step);
    case GameAsks(_, _) => QuietStepIsForward(s, step);
    case ClaimsObject(_, _) => QuietStepIsForward(s, step);
    case SendsState(_) => QuietStepIsForward(s, step);
    case LosesQuorum => QuietStepIsForward(s, step);
  }

  lemma SentSampleOk(s: Mesh, n: Node)
    requires Inv(s) && Enabled(s, SendsState(n)) && SamplesOk(s)
    ensures SamplesOk(Next(s, SendsState(n)))
  {
    assert NodeInv(s, n);
    var s' := Next(s, SendsState(n));
    forall x | x in s'.samples ensures SampleOk(s', x) {
      if x in s.samples { assert SampleOk(s, x); }
    }
  }

  lemma StepKeepsSamples(s: Mesh, step: Step)
    requires Inv(s) && SamplesOk(s) && Enabled(s, step) && Keyed(Next(s, step))
    ensures SamplesOk(Next(s, step))
  {
    if step.SendsState? {
      SentSampleOk(s, step.node);
    } else {
      StepIsForward(s, step);
      ForwardKeepsSamples(s, Next(s, step));
    }
  }

  lemma ForwardKeepsSamples(s: Mesh, s': Mesh)
    requires Keyed(s) && Keyed(s') && Forward(s, s') && SamplesOk(s) && s'.samples == s.samples
    ensures SamplesOk(s')
  {
    forall x | x in s'.samples ensures SampleOk(s', x) {
      assert SampleOk(s, x);
    }
  }

  ghost predicate Run(s: Mesh, steps: seq<Step>, s': Mesh)
    decreases |steps|
  {
    if steps == [] then s' == s
    else Keyed(s) && Enabled(s, steps[0]) && Run(Next(s, steps[0]), steps[1..], s')
  }

  ghost predicate RunInv(s: Mesh) {
    Inv(s) && SamplesOk(s)
  }

  lemma {:induction false} RunKeeps(s: Mesh, steps: seq<Step>, s': Mesh)
    requires RunInv(s) && Run(s, steps, s')
    ensures RunInv(s')
    decreases |steps|
  {
    if steps != [] {
      StepKeeps(s, steps[0]);
      StepKeepsSamples(s, steps[0]);
      RunKeeps(Next(s, steps[0]), steps[1..], s');
    }
  }

  /** No release is lost: in every run, a frozen object is the node's own and its release is on its way to the registry
      or waits there, or what ends the release is on its way back. */
  lemma NoReleaseIsLost(s: Mesh, steps: seq<Step>, s': Mesh, n: Node)
    requires Initial(s) && Run(s, steps, s') && Keyed(s') && n in s'.ready && s'.nodes[n].entry.Some?
    ensures var e := s'.nodes[n].entry.value;
      (e.frozen ==> e.owner == n && Awaited(s', n)) && (e.releaseOwn ==> e.frozen)
  {
    InitialHolds(s);
    RunKeeps(s, steps, s');
    assert NodeInv(s', n);
  }

  /** Once the messages from and to a node are handled, it has nothing frozen. */
  lemma QuietMeansThawed(s: Mesh, steps: seq<Step>, s': Mesh, n: Node)
    requires Initial(s) && Run(s, steps, s') && Keyed(s') && n in s'.ready && s'.nodes[n].entry.Some?
    requires s'.up[n] == [] && s'.down[n] == [] && s'.deferred == []
    ensures !s'.nodes[n].entry.value.frozen
  {
    NoReleaseIsLost(s, steps, s', n);
  }

  /** Replicas converge: a node that took everything the registry sent it has the registry's owner and version, and no
      entry once the object was dropped. */
  lemma ReplicasConverge(s: Mesh, steps: seq<Step>, s': Mesh, n: Node)
    requires Initial(s) && Run(s, steps, s') && Keyed(s') && n in s'.ready && s'.down[n] == []
    ensures s'.gone ==> s'.nodes[n].entry.None?
    ensures !s'.gone && s'.log != [] && s'.phase != Settling ==>
      s'.hold.Some? && s'.nodes[n].entry.Some? && s'.nodes[n].entry.value.announced &&
      s'.nodes[n].entry.value.owner == s'.hold.value.owner && s'.nodes[n].entry.value.version == s'.hold.value.version
  {
    InitialHolds(s);
    RunKeeps(s, steps, s');
    assert NodeInv(s', n);
    assert s'.at[n] == End(s');
  }

  /** What a node believes, once it heard from this registry, is a pair the registry recorded: the version it is at. */
  lemma ReplicasAreRecorded(s: Mesh, steps: seq<Step>, s': Mesh, n: Node)
    requires Initial(s) && Run(s, steps, s') && Keyed(s') && n in s'.ready
    requires s'.nodes[n].entry.Some? && s'.nodes[n].entry.value.announced
    ensures s'.at[n].Taken?
    ensures Names(s'.log, s'.at[n].k, s'.nodes[n].entry.value.owner, s'.nodes[n].entry.value.version)
  {
    InitialHolds(s);
    RunKeeps(s, steps, s');
    assert NodeInv(s', n);
  }

  /** Versions never go back, and what the registry recorded stays recorded. */
  lemma {:induction false} RunsGoForward(s: Mesh, steps: seq<Step>, s': Mesh)
    requires RunInv(s) && Run(s, steps, s') && Keyed(s')
    ensures Forward(s, s')
    decreases |steps|
  {
    if steps != [] {
      StepKeeps(s, steps[0]);
      StepKeepsSamples(s, steps[0]);
      StepIsForward(s, steps[0]);
      RunsGoForward(Next(s, steps[0]), steps[1..], s');
      RunKeeps(Next(s, steps[0]), steps[1..], s');
      ForwardIsTransitive(s, Next(s, steps[0]), s');
    }
  }

  /** A node that is ready before and after was ready in between: who left doesn't come back. */
  lemma ForwardIsTransitive(s: Mesh, m: Mesh, s': Mesh)
    requires Keyed(s) && Keyed(m) && Keyed(s') && Forward(s, m) && Forward(m, s') && s'.ready !! s'.departed
    ensures Forward(s, s')
  {
    forall n | n in s.ready && n in s'.ready ensures NotBack(s.at[n], s'.at[n]) {
      assert n in m.ready;
    }
  }

  /** Two versions fewer than 2^32 - 1 apart are different on the wire. */
  lemma SerialsDiffer(a: nat, b: nat)
    requires 0 < a < b < a + SERIALS
    ensures Serial(a) != Serial(b)
  {
    SerialIsRemainder(a);
    SerialIsRemainder(b);
    if Serial(a) == Serial(b) {
      var qa, qb := (a - 1) / SERIALS, (b - 1) / SERIALS;
      assert b - a == (qb - qa) * SERIALS;
      if qb > qa { AtLeastOnce(qb - qa, SERIALS); }
    }
  }

  lemma {:induction false} CountsGoUp(log: seq<Version>, i: nat, j: nat)
    requires Spaced(log) && i < j < |log|
    ensures 0 < log[i].count < log[j].count && log[0].count <= log[i].count
    decreases j
  {
    assert Gap(log, j);
    if i + 1 < j {
      CountsGoUp(log, i, j - 1);
    } else if i > 0 {
      CountsGoUp(log, 0, i);
    }
  }

  /** Whether the versions announced are fewer than there are on the wire. */
  ghost predicate WithoutWrap(log: seq<Version>) {
    log != [] ==> log[|log| - 1].count - log[0].count < SERIALS
  }

  /** Each version names one owner, while the registry announced fewer versions than there are. */
  lemma VersionNamesOneOwner(log: seq<Version>, k: nat, j: nat, owner: Node, other: Node, version: nat)
    requires Spaced(log) && WithoutWrap(log) && Names(log, k, owner, version) && Names(log, j, other, version)
    ensures k == j && owner == other
  {
    if k != j {
      var lo, hi := if k < j then k - 1 else j - 1, if k < j then j - 1 else k - 1;
      CountsGoUp(log, lo, hi);
      if hi < |log| - 1 { CountsGoUp(log, hi, |log| - 1); }
      SerialsDiffer(log[lo].count, log[hi].count);
    }
  }

  /** handle_state: whether a node takes a state sample as the owner's. */
  predicate Accepts(r: Replica, x: Sample) {
    r.entry.Some? && r.entry.value.owner == x.from && r.entry.value.version == x.version
  }

  /** The fence: a node that heard from the registry takes a sample exactly when it was sent under the version the node
      is at; so it comes from that version's owner, whatever the network kept, and older owners' states are refused. */
  lemma VersionsFenceStates(s: Mesh, steps: seq<Step>, s': Mesh, n: Node, x: Sample)
    requires Initial(s) && Run(s, steps, s') && Keyed(s') && n in s'.ready && x in s'.samples
    requires s'.nodes[n].entry.Some? && s'.nodes[n].entry.value.announced && WithoutWrap(s'.log)
    requires x.at.Taken?
    ensures Accepts(s'.nodes[n], x) <==> x.at == s'.at[n]
    ensures Accepts(s'.nodes[n], x) ==> Names(s'.log, s'.at[n].k, x.from, x.version)
  {
    InitialHolds(s);
    RunKeeps(s, steps, s');
    ReplicasAreRecorded(s, steps, s', n);
    assert SampleOk(s', x);
    FenceHolds(s', n, x);
  }

  lemma FenceHolds(s: Mesh, n: Node, x: Sample)
    requires Keyed(s) && n in s.ready && Spaced(s.log) && WithoutWrap(s.log) && SampleOk(s, x) && x.at.Taken?
    requires s.nodes[n].entry.Some? && s.at[n].Taken?
    requires Names(s.log, s.at[n].k, s.nodes[n].entry.value.owner, s.nodes[n].entry.value.version)
    ensures Accepts(s.nodes[n], x) <==> x.at == s.at[n]
  {
    if Accepts(s.nodes[n], x) {
      VersionNamesOneOwner(s.log, x.at.k, s.at[n].k, x.from, s.nodes[n].entry.value.owner, x.version);
    }
  }
}
