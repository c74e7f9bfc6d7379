/** Where a rewind isn't what the prediction would have been: past the most objects a frame ticks, and with objects that
    the snapshot lacks. Both on a game of counters, in runs of a client that starts. */
module PredictionLimits {
  import opened Frames
  import opened Snapshots
  import opened Prediction

  // ----------------------------------------------------------------------------------------------- Most objects

  /** Simulating the frame of a tick again, from where the tick began, gives what the tick gave. */
  ghost predicate IsReplayed(p: Predictor, collected: map<Id, Input>)
    requires |p.ring| > 0
  {
    var q := Tick(p, collected);
    q.live == TickAll(p.game, p.ids, p.live, q.ring[Slot(p.next, |p.ring|)].inputs)
  }

  /** Every tick of these objects can be simulated again: in every game, with any input, from any state. */
  ghost predicate AllReplayed(ids: seq<Id>) {
    forall p: Predictor, collected: map<Id, Input> ::
      |p.ring| > 0 && p.ids == ids && p.live.Keys == ToSet(ids) ==> IsReplayed(p, collected)
  }

  lemma {:induction false} RecordedIsEnough(g: Game, ids: seq<Id>, all: seq<Id>, live: States, inputs: map<Id, Input>)
    requires ToSet(ids) <= ToSet(all)
    ensures TickAll(g, ids, live, Recorded(all, inputs)) == TickAll(g, ids, live, inputs)
    decreases |ids|
  {
    if ids != [] {
      var id := ids[|ids| - 1];
      assert id in ToSet(ids) && id in all;
      RecordedIsEnough(g, ids[..|ids| - 1], all, live, inputs);
    }
  }

  /** A replay is what ticking would have done, in every game, if and only if there are no more objects than a frame
      ticks. */
  lemma ReplayIsTickingExactly(ids: seq<Id>)
    requires Distinct(ids)
    ensures AllReplayed(ids) <==> |ids| <= MAX_TICKED
  {
    if |ids| <= MAX_TICKED {
      forall p: Predictor, collected: map<Id, Input> | |p.ring| > 0 && p.ids == ids && p.live.Keys == ToSet(ids)
        ensures IsReplayed(p, collected)
      {
        RecordedIsEnough(p.game, ids, ids, p.live, collected);
      }
    } else {
      OneMoreIsTicked(ids, Counting(ids, Zeros(ids)));
    }
  }

  /** One counter too many: the tick leaves it, and a replay counts it. */
  lemma OneMoreIsTicked(ids: seq<Id>, p: Predictor)
    requires Distinct(ids) && |ids| > MAX_TICKED && p == Counting(ids, Zeros(ids))
    ensures |p.ring| > 0 && !IsReplayed(p, map[])
  {
    var id := ids[MAX_TICKED];
    assert id !in Ticked(ids) && id in p.live;
    UntickedStays(p, map[], id);
    CounterCounts(ids, p.live, Tick(p, map[]).ring[Slot(p.next, |p.ring|)].inputs, id);
  }

  // ---------------------------------------------------------------------------------------------------- Counters

  /** A counter: an object that adds one to its only variable every tick. */
  function Counter(): Game {
    Game((id: Id, live: States, input: Input) => if id in live && live[id] != [] then [live[id][0] + 1] else [])
  }

  function Zeros(ids: seq<Id>): States {
    map id | id in ids :: [0]
  }

  /** A client that predicts counters, with a history of two frames. */
  function Counting(ids: seq<Id>, live: States): Predictor {
    Predictor(Counter(), ids, live, [Prediction(None, map[], map[]), Prediction(None, map[], map[])], 0, None, true)
  }

  lemma {:induction false} CounterCounts(ids: seq<Id>, live: States, inputs: map<Id, Input>, id: Id)
    requires Distinct(ids) && id in live && |live[id]| == 1
    ensures TickAll(Counter(), ids, live, inputs)[id] == (if id in ids then [live[id][0] + 1] else live[id])
    decreases |ids|
  {
    if ids != [] {
      var before, last := ids[..|ids| - 1], ids[|ids| - 1];
      CounterCounts(before, live, inputs, id);
      LastIsNew(ids);
      OneCounts(TickAll(Counter(), before, live, inputs), last, InputOf(inputs, last), id);
    }
  }

  lemma LastIsNew(ids: seq<Id>)
    requires Distinct(ids) && ids != []
    ensures var before, last := ids[..|ids| - 1], ids[|ids| - 1];
      Distinct(before) && last !in before && forall id :: id in ids <==> id in before || id == last
  {
    assert ids == ids[..|ids| - 1] + [ids[|ids| - 1]];
  }

  lemma OneCounts(live: States, last: Id, input: Input, id: Id)
    requires id in live && |live[id]| == 1
    ensures live[last := Counter().step(last, live, input)][id] == (if id == last then [live[id][0] + 1] else live[id])
  {}

  // -------------------------------------------------------------------------------------------------------- Runs

  function Fresh(): Predictor {
    Counting([], map[]).(predicting := false)
  }

  /** After two ticks from 0. */
  function TwoTicks(ids: seq<Id>): Predictor {
    Tick(Tick(Counting(ids, Zeros(ids)), map[]), map[])
  }

  function Actions(ids: seq<Id>): seq<Action> {
    [GetsObjects(ids, Zeros(ids)), Starts(0, None), Ticks(map[]), Ticks(map[])]
  }

  /** A client that starts gets there. */
  lemma TwoTicksAreReached(ids: seq<Id>)
    ensures Inv(Fresh()) && Run(Fresh(), Actions(ids), TwoTicks(ids)) && Inv(TwoTicks(ids))
  {
    assert Contiguous(Fresh(), 0) && Current(Fresh(), 0);
    var p1, p2 := Counting(ids, Zeros(ids)).(predicting := false), Counting(ids, Zeros(ids));
    GetsCounters(ids);
    TwoTicksRun(p2);
    assert Act(p1, Starts(0, None)) == p2 by { assert Cleared(p1.ring) == p1.ring; }
    RunCons(p1, Starts(0, None), [Ticks(map[]), Ticks(map[])], TwoTicks(ids));
    RunCons(Fresh(), GetsObjects(ids, Zeros(ids)), [Starts(0, None), Ticks(map[]), Ticks(map[])], TwoTicks(ids));
    RecordsAreContiguous(Fresh(), Actions(ids), TwoTicks(ids));
  }

  lemma TwoTicksRun(p: Predictor)
    requires |p.ring| > 0 && |Tick(p, map[]).ring| > 0
    ensures Run(p, [Ticks(map[]), Ticks(map[])], Tick(Tick(p, map[]), map[]))
  {
    var q := Tick(Tick(p, map[]), map[]);
    RunCons(Tick(p, map[]), Ticks(map[]), [], q);
    RunCons(p, Ticks(map[]), [Ticks(map[])], q);
  }

  lemma GetsCounters(ids: seq<Id>)
    ensures CanAct(Fresh(), GetsObjects(ids, Zeros(ids)))
    ensures Act(Fresh(), GetsObjects(ids, Zeros(ids))) == Counting(ids, Zeros(ids)).(predicting := false)
  {
    assert Fresh().ring[0].states == map[] && Fresh().ring[1].states == map[];
    assert SetObjects(Fresh(), ids, Zeros(ids)).live == Zeros(ids);
  }

  lemma RunCons(p: Predictor, a: Action, rest: seq<Action>, p': Predictor)
    requires |p.ring| > 0 && CanAct(p, a) && Run(Act(p, a), rest, p')
    ensures Run(p, [a] + rest, p')
    ensures forall all :: |all| == |rest| + 1 && all[0] == a && all[1..] == rest ==> Run(p, all, p')
  {
    assert ([a] + rest)[1..] == rest;
  }

  lemma TwoTicksRecord(ids: seq<Id>)
    ensures var p := TwoTicks(ids);
      && p.ids == ids && p.game == Counter() && p.next == 2 && p.predicting && |p.ring| == 2 && p.lastReconciled.None?
      && p.ring[0].frame == Some(0) && p.ring[1].frame == Some(1) && p.live.Keys == ToSet(ids)
      && p.ring[0].states == Only(Tick(Counting(ids, Zeros(ids)), map[]).live, Ticked(ids))
      && p.ring[0].states.Keys == ToSet(Ticked(ids))
  {
    assert Slot(0, 2) == 0 && Slot(1, 2) == 1;
    assert ToSet(Ticked(ids)) <= ToSet(ids);
  }

  /** The counters a frame ticks are at 2, after 1 at frame 0; the others are at 0. */
  lemma TicksCount(ids: seq<Id>, id: Id)
    requires Distinct(ids) && id in ids
    ensures var p := TwoTicks(ids);
      && |p.ring| == 2 && id in p.live && p.live[id] == (if id in Ticked(ids) then [2] else [0])
      && (id in Ticked(ids) ==> id in p.ring[0].states && p.ring[0].states[id] == [1])
  {
    var p0 := Counting(ids, Zeros(ids));
    CountsTwice(p0, Tick(p0, map[]), id);
    TwoTicksRecord(ids);
  }

  lemma CountsTwice(p: Predictor, q: Predictor, id: Id)
    requires Distinct(p.ids) && p.game == Counter() && |p.ring| == 2 && id in p.ids && id in p.live && p.live[id] == [0]
    requires q == p.(live := q.live, ring := q.ring, next := q.next) && |q.ring| == 2 && q.live == Tick(p, map[]).live
    ensures q.live[id] == (if id in Ticked(p.ids) then [1] else [0])
    ensures Tick(q, map[]).live[id] == (if id in Ticked(p.ids) then [2] else [0])
  {
    TickCounts(p, id, 0);
    TickCounts(q, id, if id in Ticked(p.ids) then 1 else 0);
  }

  lemma TickCounts(p: Predictor, id: Id, v: int)
    requires Distinct(p.ids) && p.game == Counter() && |p.ring| > 0 && id in p.live && p.live[id] == [v]
    ensures Tick(p, map[]).live[id] == (if id in Ticked(p.ids) then [v + 1] else [v])
  {
    CounterCounts(Ticked(p.ids), p.live, map[], id);
  }

  /** A counter that no frame ticks, in a rewind to a snapshot that says what it is: it counts. Ticking from the same
      state would have left it. */
  lemma RewindTicksTheRest(ids: seq<Id>, id: Id)
    requires Distinct(ids) && id in ids && id !in Ticked(ids)
    ensures Run(Fresh(), Actions(ids), TwoTicks(ids)) && |TwoTicks(ids).ring| > 0
    ensures var p, server := TwoTicks(ids), Zeros(ids); var q := Reconcile(p, 0, Some(server));
      && p.live.Keys == ToSet(ids) && id in q.live && p.live[id] == [0] == server[id] && q.live[id] == [1]
      && (forall inputs :: Tick(p.(live := server), inputs).live[id] == [0])
  {
    TwoTicksAreReached(ids);
    TwoTicksRecord(ids);
    TicksCount(ids, id);
    TicksCount(ids, ids[0]);
    RewindCounts(TwoTicks(ids), ids, id);
    TickLeaves(TwoTicks(ids), ids, id);
  }

  lemma TickLeaves(p: Predictor, ids: seq<Id>, id: Id)
    requires id in ids && id !in Ticked(ids) && p.ids == ids && |p.ring| > 0
    ensures forall inputs :: Tick(p.(live := Zeros(ids)), inputs).live[id] == [0]
  {
    forall inputs ensures Tick(p.(live := Zeros(ids)), inputs).live[id] == [0] {
      UntickedStays(p.(live := Zeros(ids)), inputs, id);
    }
  }

  lemma RewindCounts(p: Predictor, ids: seq<Id>, id: Id)
    requires Distinct(ids) && id in ids && id !in Ticked(ids) && Inv(p)
    requires p.ids == ids && p.game == Counter() && p.next == 2 && |p.ring| == 2 && Compares(p, 0)
    requires ids[0] in p.ring[0].states && p.ring[0].states[ids[0]] == [1]
    ensures var q := Reconcile(p, 0, Some(Zeros(ids))); id in q.live && q.live[id] == [1]
  {
    var server := Zeros(ids);
    RewindIsOneTick(p, ids);
    CounterCounts(ids, server, p.ring[1].inputs, id);
  }

  lemma RewindIsOneTick(p: Predictor, ids: seq<Id>)
    requires ids != [] && Inv(p)
    requires p.ids == ids && p.game == Counter() && p.next == 2 && |p.ring| == 2 && Compares(p, 0)
    requires ids[0] in p.ring[0].states && p.ring[0].states[ids[0]] == [1]
    ensures Reconcile(p, 0, Some(Zeros(ids))).live == TickAll(Counter(), ids, Zeros(ids), p.ring[1].inputs)
  {
    DivergesAtFirst(p, ids);
    RewindEqualsReplay(p, 0, Zeros(ids));
    assert Only(Zeros(ids), ids) == Zeros(ids);
    FinalIsOneTick(p, Zeros(ids));
  }

  lemma DivergesAtFirst(p: Predictor, ids: seq<Id>)
    requires p.ids == ids && ids != [] && |p.ring| == 2 && ids[0] in p.ring[0].states && p.ring[0].states[ids[0]] == [1]
    ensures Diverged(p.ring[Slot(0, |p.ring|)].states, p.ids, Zeros(ids)) && ToSet(ids) <= Zeros(ids).Keys
  {
    assert Slot(0, 2) == 0 && Differs(p.ring[0].states, Zeros(ids), ids[0]);
  }

  lemma FinalIsOneTick(p: Predictor, from: States)
    requires |p.ring| == 2 && p.next == 2
    ensures Final(p, from, 0) == TickAll(p.game, p.ids, from, p.ring[1].inputs)
  {
    assert Slot(1, 2) == 1;
    assert Replay(p.game, p.ids, from, p.ring, 0, 0) == from;
  }

  /** A snapshot of frame 0 with the first of two counters only: the second one, which was at 1 at that frame, is ticked
      from where it is, and ends at 3 a frame later. */
  lemma MissingObjectIsNotRestored()
    ensures Run(Fresh(), Actions([1, 2]), TwoTicks([1, 2])) && |TwoTicks([1, 2]).ring| == 2
    ensures TwoTicks([1, 2]).ring[0].states == map[1 := [1], 2 := [1]]
    ensures Reconcile(TwoTicks([1, 2]), 0, Some(map[1 := [5]])).live == map[1 := [6], 2 := [3]]
  {
    TwoTicksAreReached([1, 2]);
    TwoCount();
    RewindOfTwo(TwoTicks([1, 2]));
  }

  lemma TwoCount()
    ensures var p := TwoTicks([1, 2]);
      && p.ids == [1, 2] && p.game == Counter() && p.next == 2 && |p.ring| == 2 && p.predicting
      && p.lastReconciled.None?
      && p.ring[0].frame == Some(0) && p.ring[1].frame == Some(1)
      && p.ring[0].states == map[1 := [1], 2 := [1]] && p.live == map[1 := [2], 2 := [2]]
  {
    TwoTicksRecord([1, 2]);
    TicksCount([1, 2], 1);
    TicksCount([1, 2], 2);
    OnlyTwo(TwoTicks([1, 2]).ring[0].states, [1]);
    OnlyTwo(TwoTicks([1, 2]).live, [2]);
  }

  lemma OnlyTwo(states: States, value: seq<Value>)
    requires states.Keys == {1, 2} && states[1] == value && states[2] == value
    ensures states == map[1 := value, 2 := value]
  {}

  lemma RewindOfTwo(p: Predictor)
    requires p.ids == [1, 2] && p.game == Counter() && p.next == 2 && |p.ring| == 2 && p.predicting
      && p.lastReconciled.None?
    requires p.ring[0].frame == Some(0) && p.ring[1].frame == Some(1) && p.ring[0].states == map[1 := [1], 2 := [1]]
    requires p.live == map[1 := [2], 2 := [2]]
    ensures Reconcile(p, 0, Some(map[1 := [5]])).live == map[1 := [6], 2 := [3]]
  {
    var server := map[1 := [5]];
    var r := Rewound(p.(lastReconciled := Some(0)), 0, server);
    OverlayOfTwo(p.live, server);
    ReplayOfTwo(r);
    ReconcileRewinds(p, server, 1);
  }

  lemma ReconcileRewinds(p: Predictor, server: States, id: Id)
    requires |p.ring| == 2 && Compares(p, 0) && id in p.ids && Differs(p.ring[0].states, server, id)
    ensures Reconcile(p, 0, Some(server)) == ReplayFrom(Rewound(p.(lastReconciled := Some(0)), 0, server), 1)
  {
    assert Slot(0, 2) == 0;
  }

  lemma OverlayOfTwo(live: States, server: States)
    requires live == map[1 := [2], 2 := [2]] && server == map[1 := [5]]
    ensures Overlay(live, [1, 2], server) == map[1 := [5], 2 := [2]]
  {
    assert [1, 2][..1] == [1] && [1][..0] == [];
    assert Overlay(live, [1], server) == live[1 := [5]];
  }

  lemma ReplayOfTwo(r: Predictor)
    requires |r.ring| == 2 && r.game == Counter() && r.ids == [1, 2] && r.next == 2 && r.ring[1].frame == Some(1)
    requires r.live == map[1 := [5], 2 := [2]]
    ensures ReplayFrom(r, 1).live == map[1 := [6], 2 := [3]]
  {
    assert Slot(1, 2) == 1;
    TickOfTwo(r.live, r.ring[1].inputs);
    assert ReplayFrom(ReplayOne(r, 1), 2) == ReplayOne(r, 1);
  }

  lemma TickOfTwo(live: States, inputs: map<Id, Input>)
    requires live == map[1 := [5], 2 := [2]]
    ensures TickAll(Counter(), [1, 2], live, inputs) == map[1 := [6], 2 := [3]]
  {
    CounterCounts([1, 2], live, inputs, 1);
    CounterCounts([1, 2], live, inputs, 2);
  }
}
