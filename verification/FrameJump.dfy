/** A server that follows another engine's timeline may jump ahead (it's too far behind to catch up). Runs with jumps
    are as sound as runs without them while no record the ring keeps is more than a quarantine older than the frame
    jumped to. Past that, a reused id can take the state of the object that had it before. Both sides, for every size of
    the history and every jump, from one state that a run reaches. */
module FrameJump {
  import opened Frames
  import opened Snapshots
  import opened DeltaChain
  import opened DeltaSteps
  import opened DeltaRuns
  import S = SyncServer
  import C = SyncClient

  const EMPTY: Record := Record(None, map[])

  function Ring(h: nat): (r: seq<Record>)
    ensures |r| == h && forall i :: 0 <= i < h ==> r[i] == EMPTY
  {
    seq(h, i => EMPTY)
  }

  // --------------------------------------------------------------------------------------- The run before the jump

  ghost function Start(h: nat): System {
    System(S.Server(0, Ring(h), map[], [], map[], S.Peer(None, None, true, {}, map[], {})), false,
           C.Client(Ring(h), None, None, [], false, map[]), map[], {}, [], map[], map[], map[])
  }

  /** Object 1 is registered at the server, and bound at the client. */
  ghost function Bound(h: nat): System {
    System(S.Server(0, Ring(h), map[1 := 1], [1], map[], S.Peer(None, None, true, {1}, map[], {})), false,
           C.Client(Ring(h), None, None, [], true, map[1 := 1]), map[1 := 1], {}, [],
           map[], map[1 := 0], map[1 := 1])
  }

  function First(): Snapshot {
    Snapshot(true, 0, None, 0, 1, [Delta(1, [Some(7)])], false)
  }

  /** Frame 0 was simulated and sent. */
  ghost function FirstSent(h: nat): System
    requires h > 0
  {
    System(S.Server(1, Ring(h)[0 := Record(Some(0), map[1 := [7]])], map[1 := 1], [1], map[],
                    S.Peer(None, Some(0), false, {1}, map[], {})), false,
           C.Client(Ring(h), None, None, [], true, map[1 := 1]), map[1 := 1], {First()}, [],
           map[0 := map[1 := [7]]], map[1 := 0], map[1 := 1])
  }

  /** The client took it and acknowledged it, and the object was removed. */
  ghost function Before(h: nat): System
    requires h > 0
  {
    System(S.Server(1, Ring(h)[0 := Record(Some(0), map[])], map[], [], map[1 := 1],
                    S.Peer(Some(0), Some(0), false, {}, map[], {})), false,
           C.Client(Ring(h)[0 := Record(Some(0), map[1 := [7]])], Some(0), None, [1], false, map[]),
           map[], {First()}, [], map[0 := map[1 := [7]]], map[1 := 0], map[1 := 1])
  }

  lemma StartRuns(h: nat)
    requires h > 0
    ensures Initial(Start(h))
    ensures Run(Start(h), [Register(1, 1, true, false), DeliverControl, Bind(1)], Bound(h))
  {
    var s1, s2 := FirstAdded(h), Bound(h).(client := Start(h).client);
    RegistersFirst(h);
    assert Apply(s1, DeliverControl) == s2;
    assert Apply(s2, Bind(1)) == Bound(h);
    RunOne(s2, Bind(1));
    RunCons(s1, DeliverControl, [Bind(1)], Bound(h));
    RunCons(Start(h), Register(1, 1, true, false), [DeliverControl] + [Bind(1)], Bound(h));
    assert [Register(1, 1, true, false)] + ([DeliverControl] + [Bind(1)]) ==
           [Register(1, 1, true, false), DeliverControl, Bind(1)];
  }

  ghost function FirstAdded(h: nat): System {
    Bound(h).(client := Start(h).client, known := map[], control := [Control.Registered(1, 1)])
  }

  lemma RegistersFirst(h: nat)
    requires h > 0
    ensures Enabled(Start(h), Register(1, 1, true, false))
      && Apply(Start(h), Register(1, 1, true, false)) == FirstAdded(h)
  {
    assert S.InsertId([], 1) == [1] && {} + {1} == {1};
  }

  /** The first frame, before it's sent. */
  ghost function FirstSimulated(h: nat): System
    requires h > 0
  {
    FirstSent(h).(server := FirstSent(h).server.(peer := Bound(h).server.peer), unsent := true, net := {})
  }

  lemma SimulatesFirst(h: nat)
    requires h > 0
    ensures Enabled(Bound(h), Simulate(map[1 := [7]]))
      && Apply(Bound(h), Simulate(map[1 := [7]])) == FirstSimulated(h)
  {
    assert map[] + map[1 := [7]] == map[1 := [7]];
  }

  lemma SendsOne(h: nat, fits: Fits)
    requires h > 0
    ensures Enabled(FirstSimulated(h), Send(false, fits))
      && Apply(FirstSimulated(h), Send(false, fits)) == FirstSent(h)
  {
    SendsFirst(FirstSimulated(h).server, h, fits);
    assert {} + (set m | m in [First()]) == {First()};
  }

  lemma FirstIsSent(h: nat, fits: Fits)
    requires h > 0
    ensures Run(Bound(h), [Simulate(map[1 := [7]]), Send(false, fits)], FirstSent(h))
  {
    SimulatesFirst(h);
    SendsOne(h, fits);
    RunOne(FirstSimulated(h), Send(false, fits));
    RunCons(Bound(h), Simulate(map[1 := [7]]), [Send(false, fits)], FirstSent(h));
    assert [Simulate(map[1 := [7]])] + [Send(false, fits)] == [Simulate(map[1 := [7]]), Send(false, fits)];
  }

  lemma SendsFirst(s: S.Server, h: nat, fits: Fits)
    requires h > 0 && s == FirstSent(h).server.(peer := S.Peer(None, None, true, {1}, map[], {}))
    ensures S.Send(s, false, fits) == (FirstSent(h).server, [First()])
  {
    assert S.ChooseBase(s, false) == S.Full;
    var e := Delta(1, [Some(7)]);
    assert EncodeVars([7], None) == [Some(7)];
    assert S.EntryFor(s, 0, None, 1) == e;
    OneEntry(s, 0, None, e);
    OnePart(e, true, fits);
    assert s.peer.since - S.ConfirmedIn(s.peer, s.ids) == map[];
    assert S.Messages(true, 0, None, [[e]]) == [First()];
  }

  lemma OneEntry(s: S.Server, f: nat, base: Option<nat>, e: Entry)
    requires |s.history| > 0 && s.ids == [1] && s.peer.relevant == {1} && S.EntryFor(s, f, base, 1) == e
    ensures S.EntriesFor(s, f, base, s.ids) == [e]
  {
    assert [1][..0] == [];
  }

  lemma OnePart(e: Entry, full: bool, fits: Fits)
    ensures Split([e], full, fits) == [[e]]
  {
    assert [e][..0] == [] && [] + [e] == [e];
    assert AddEntry([[]], e, full, fits) == [[e]];
  }

  ghost function FirstTaken(h: nat): System
    requires h > 0
  {
    var s := FirstSent(h);
    s.(server := s.server.(peer := s.server.peer.(acked := Some(0))),
       client := Before(h).client.(bound := map[1 := 1]))
  }

  lemma FirstIsTaken(h: nat)
    requires h > 0
    ensures Run(FirstSent(h), [Deliver(First()), Acknowledge(Some(0), false)], FirstTaken(h))
  {
    var s0 := FirstSent(h);
    var s1 := Apply(s0, Deliver(First()));
    DecodesFirst(s0.client, h);
    RunOne(s1, Acknowledge(Some(0), false));
    RunCons(s0, Deliver(First()), [Acknowledge(Some(0), false)], FirstTaken(h));
    assert [Deliver(First())] + [Acknowledge(Some(0), false)] == [Deliver(First()), Acknowledge(Some(0), false)];
  }

  lemma FirstIsRemoved(h: nat)
    requires h > 0
    ensures Run(FirstTaken(h), [Unregister(1), DeliverControl], Before(h))
  {
    var s0 := FirstTaken(h);
    var s1 := Apply(s0, Unregister(1));
    RemovesFirst(s0.server, h);
    assert Apply(s1, DeliverControl) == Before(h) by {
      assert map[1 := 1] - {1} == map[];
    }
    RunOne(s1, DeliverControl);
    RunCons(s0, Unregister(1), [DeliverControl], Before(h));
    assert [Unregister(1)] + [DeliverControl] == [Unregister(1), DeliverControl];
  }

  lemma RemovesFirst(s: S.Server, h: nat)
    requires h > 0 && s == FirstTaken(h).server
    ensures S.Unregister(s, 1) == Before(h).server
  {
    assert map[1 := [7]] - {1} == map[] && map[1 := 1] - {1} == map[] && {1} - {1} == {};
    assert [1][..0] == [] && S.RemoveId([1], 1) == [];
    assert S.Forget(s.history, 1) == Ring(h)[0 := Record(Some(0), map[])];
  }

  lemma DecodesFirst(c: C.Client, h: nat)
    requires h > 0 && c == FirstSent(h).client
    ensures C.Handle(c, First()) == Before(h).client.(bound := c.bound)
  {
    var m := First();
    var start := C.StartPart(c, m);
    assert c.received[0 := c.received[0].(frame := None)] == c.received;
    assert start == C.Ready(c.(pending := Some(C.Pending(0, 1, {}, false))));
    var d0 := Decoding(map[], [], false);
    assert C.DecodePart(start.client, m) == Decoding(map[1 := [7]], [1], false) by {
      OneRead(d0, Delta(1, [Some(7)]), map[], c.bound);
      assert DecodeVars([Some(7)], 1, None).value == [7];
    }
    assert {} + {0} == C.AllParts(1);
    assert DropStale(map[1 := [7]], [1]) == map[1 := [7]];
  }

  lemma OneRead(d: Decoding, e: Entry, base: States, bound: map<Id, nat>)
    ensures ReadEntries(d, [e], base, bound) == ReadEntry(d, e, base, bound)
  {
    assert [e][..0] == [];
  }

  /** A run leads to the state before the jump. */
  lemma BeforeIsReached(h: nat, fits: Fits) returns (actions: seq<Action>)
    requires h > 0
    ensures Initial(Start(h)) && Run(Start(h), actions, Before(h))
  {
    var xs := [Register(1, 1, true, false), DeliverControl, Bind(1)];
    var ys := [Simulate(map[1 := [7]]), Send(false, fits)];
    var zs := [Deliver(First()), Acknowledge(Some(0), false)];
    var removed := [Unregister(1), DeliverControl];
    StartRuns(h);
    FirstIsSent(h, fits);
    FirstIsTaken(h);
    FirstIsRemoved(h);
    RunAppends(FirstSent(h), zs, FirstTaken(h), removed, Before(h));
    RunAppends(Bound(h), ys, FirstSent(h), zs + removed, Before(h));
    RunAppends(Start(h), xs, Bound(h), ys + (zs + removed), Before(h));
    actions := xs + (ys + (zs + removed));
  }

  // ---------------------------------------------------------------------------------------------- After the jump

  /** What a snapshot of the frame jumped to says of object 1 over frame 0: there's nothing new of it. */
  function Late(target: nat): Snapshot {
    Snapshot(false, target, Some(0), 0, 1, [Same(1)], false)
  }

  /** Another object takes the id once the frame jumped to is simulated. */
  ghost function Reused(h: nat, target: nat): System
    requires h > 0
  {
    var s := Leap(Before(h), target, map[]);
    s.(server := s.server.(live := map[1 := 1], ids := [1], quarantined := map[],
                           peer := s.server.peer.(relevant := {1})),
       born := map[1 := target + 1], control := [Registered(1, 1)])
  }

  ghost function LateSent(h: nat, target: nat): System
    requires h > 0
  {
    Reused(h, target).(unsent := false, net := {First(), Late(target)})
  }

  lemma ReusesTheId(h: nat, target: nat)
    requires h > 0 && target > 2 * h
    ensures Run(Leap(Before(h), target, map[]), [Register(1, 1, true, false)], Reused(h, target))
  {
    var s := Leap(Before(h), target, map[]);
    assert map[1 := 1] - {1} == map[] && {} + {1} == {1};
    assert Apply(s, Register(1, 1, true, false)) == Reused(h, target);
    RunOne(s, Register(1, 1, true, false));
  }

  lemma SendsTheId(h: nat, target: nat, fits: Fits)
    requires h > 0 && target > 2 * h && Slot(target, h) != 0
    ensures Run(Reused(h, target), [Send(false, fits)], LateSent(h, target))
  {
    var s := Reused(h, target);
    SendsLate(s.server, h, target, fits);
    assert {First()} + (set m | m in [Late(target)]) == {First(), Late(target)};
    RunOne(s, Send(false, fits));
  }

  lemma SendsLate(s: S.Server, h: nat, target: nat, fits: Fits)
    requires h > 0 && target > 0 && Slot(target, h) != 0 && s.next == target + 1
    requires s.history == Ring(h)[0 := Record(Some(0), map[])][Slot(target, h) := Record(Some(target), map[] + map[])]
    requires s.ids == [1] && s.peer == S.Peer(Some(0), Some(0), false, {1}, map[], {})
    ensures S.Send(s, false, fits) == (s, [Late(target)])
  {
    LateEntry(s, h, target);
    OneEntry(s, target, Some(0), Same(1));
    OnePart(Same(1), false, fits);
    OneMessage(s, target, fits);
  }

  lemma LateEntry(s: S.Server, h: nat, target: nat)
    requires h > 0 && target > 0 && Slot(target, h) != 0 && s.next == target + 1
    requires s.history == Ring(h)[0 := Record(Some(0), map[])][Slot(target, h) := Record(Some(target), map[] + map[])]
    requires s.peer == S.Peer(Some(0), Some(0), false, {1}, map[], {})
    ensures S.ChooseBase(s, false) == S.Over(0) && S.EntryFor(s, target, Some(0), 1) == Same(1)
  {
    assert s.history[0] == Record(Some(0), map[]) && s.history[Slot(target, h)] == Record(Some(target), map[]);
  }

  lemma OneMessage(s: S.Server, target: nat, fits: Fits)
    requires |s.history| > 0 && s.next == target + 1 && s.peer.since == map[] && S.ChooseBase(s, false) == S.Over(0)
    requires Split(S.EntriesFor(s, target, Some(0), s.ids), false, fits) == [[Same(1)]]
    ensures S.Send(s, false, fits) == (s, [Late(target)])
  {
    assert s.peer.since - S.ConfirmedIn(s.peer, s.ids) == s.peer.since;
    assert S.Messages(false, target, Some(0), [[Same(1)]]) == [Late(target)];
  }

  lemma DecodesOldState(c: C.Client, h: nat, target: nat)
    requires h > 0 && target > 0 && Slot(target, h) != 0 && c == Before(h).client
    ensures C.Received(C.Handle(c, Late(target)), Some(target)) == Some(map[1 := [7]])
  {
    var m, slot := Late(target), Slot(target, h);
    var start := C.StartPart(c, m);
    assert start.Ready? && start.client.received[slot] == EMPTY && start.client.received[0] == c.received[0];
    assert C.BaseStates(start.client, m) == map[1 := [7]];
    OneRead(Decoding(map[], [], false), Same(1), map[1 := [7]], map[]);
    assert C.DecodePart(start.client, m) == Decoding(map[1 := [7]], [1], false);
    assert {} + {0} == C.AllParts(1);
  }

  /** Past the guard, a run after the jump leaks: the client's record of the frame says object 1 has the old object's
      state, and the server logged none for it. */
  lemma UnsafeJumpLeaks(h: nat, target: nat, fits: Fits) returns (actions: seq<Action>, s: System)
    requires h > 0 && target > 2 * h && Slot(target, h) != 0
    ensures Run(Leap(Before(h), target, map[]), actions, s) && |s.client.received| > 0
    ensures C.Received(s.client, Some(target)) == Some(map[1 := [7]]) && target in s.log && 1 !in s.log[target]
    ensures !IsSound(s)
  {
    ReusesTheId(h, target);
    SendsTheId(h, target, fits);
    var sent := LateSent(h, target);
    s := Apply(sent, Deliver(Late(target)));
    DecodesOldState(sent.client, h, target);
    RunOne(sent, Deliver(Late(target)));
    RunAppends(Reused(h, target), [Send(false, fits)], sent, [Deliver(Late(target))], s);
    actions := [Register(1, 1, true, false)] + ([Send(false, fits)] + [Deliver(Late(target))]);
    RunAppends(Leap(Before(h), target, map[]), [Register(1, 1, true, false)], Reused(h, target),
               [Send(false, fits)] + [Deliver(Late(target))], s);
    assert 1 in s.client.received[Slot(target, h)].states;
  }

  lemma SafeJumpIsSound(h: nat, target: nat, fits: Fits, actions: seq<Action>, s: System)
    requires h > 0 && target > 0 && IsSafeJump(Before(h), target) && Run(Leap(Before(h), target, map[]), actions, s)
    ensures IsSound(s)
  {
    var before := BeforeIsReached(h, fits);
    JumpIsSound(Start(h), before, Before(h), target, map[], actions, s);
  }

  lemma UnsafeMeansOld(h: nat, target: nat)
    requires h > 0 && !IsSafeJump(Before(h), target)
    ensures target > 2 * h && Slot(target, h) != 0
  {
    assert forall i :: 0 < i < h ==> Before(h).server.history[i] == EMPTY;
  }

  /** The guard is exact: whatever the size of the history and the frame jumped to, every run after the jump is sound if
      and only if the ring keeps no record more than a quarantine older than that frame. */
  lemma GuardIsExact(h: nat, target: nat, fits: Fits)
    requires h > 0 && target > 0
    ensures IsSafeJump(Before(h), target) <==> AllSound(Leap(Before(h), target, map[]))
  {
    if IsSafeJump(Before(h), target) {
      forall actions, s | Run(Leap(Before(h), target, map[]), actions, s) ensures IsSound(s) {
        SafeJumpIsSound(h, target, fits, actions, s);
      }
    } else {
      UnsafeMeansOld(h, target);
      var _, _ := UnsafeJumpLeaks(h, target, fits);
    }
  }

  /** Every run from here is sound. */
  ghost predicate AllSound(s0: System)
    requires s0.H() > 0 && |s0.client.received| > 0
  {
    forall actions, s :: Run(s0, actions, s) ==> IsSound(s)
  }
}
