/** Prediction told from the inputs the player gave: what ticks and rewinds make of them, and that comparing before
    rewinding changes nothing. */
module PredictionTruth {
  import opened Frames
  import opened Snapshots
  import opened Prediction

  // ------------------------------------------------------------------------------------------------------- Reference

  /** The objects after a frame: each in turn becomes what the game makes of it with the input it was given, or with
      none. */
  function Played(g: Game, ids: seq<Id>, states: States, inputs: map<Id, Input>): States
    decreases |ids|
  {
    if ids == [] then states
    else
      var given := if ids[0] in inputs then inputs[ids[0]] else [];
      Played(g, ids[1..], states[ids[0] := g.step(ids[0], states, given)], inputs)
  }

  /** The objects after some frames, with what was given in each. */
  function PlayedAll(g: Game, ids: seq<Id>, states: States, frames: seq<map<Id, Input>>): States
    decreases |frames|
  {
    if frames == [] then states
    else Played(g, ids, PlayedAll(g, ids, states, frames[..|frames| - 1]), frames[|frames| - 1])
  }

  lemma {:induction false} PlayedSnoc(g: Game, ids: seq<Id>, id: Id, states: States, inputs: map<Id, Input>)
    ensures Played(g, ids + [id], states, inputs) ==
      (var before := Played(g, ids, states, inputs);
       before[id := g.step(id, before, if id in inputs then inputs[id] else [])])
    decreases |ids|
  {
    if ids == [] {
      assert ([] + [id])[1..] == [];
    } else {
      var given := if ids[0] in inputs then inputs[ids[0]] else [];
      PlayedSnoc(g, ids[1..], id, states[ids[0] := g.step(ids[0], states, given)], inputs);
      assert (ids + [id])[1..] == ids[1..] + [id];
    }
  }

  /** Ticking is playing. */
  lemma {:induction false} TickIsPlayed(g: Game, ids: seq<Id>, states: States, inputs: map<Id, Input>)
    ensures TickAll(g, ids, states, inputs) == Played(g, ids, states, inputs)
    decreases |ids|
  {
    if ids != [] {
      TickIsPlayed(g, ids[..|ids| - 1], states, inputs);
      TickLast(g, ids, states, inputs);
      PlayedLast(g, ids, states, inputs);
    }
  }

  lemma TickLast(g: Game, ids: seq<Id>, states: States, inputs: map<Id, Input>)
    requires ids != []
    ensures TickAll(g, ids, states, inputs) ==
      (var id, before := ids[|ids| - 1], TickAll(g, ids[..|ids| - 1], states, inputs);
       before[id := g.step(id, before, if id in inputs then inputs[id] else [])])
  {}

  lemma PlayedLast(g: Game, ids: seq<Id>, states: States, inputs: map<Id, Input>)
    requires ids != []
    ensures Played(g, ids, states, inputs) ==
      (var id, before := ids[|ids| - 1], Played(g, ids[..|ids| - 1], states, inputs);
       before[id := g.step(id, before, if id in inputs then inputs[id] else [])])
  {
    PlayedSnoc(g, ids[..|ids| - 1], ids[|ids| - 1], states, inputs);
    assert ids[..|ids| - 1] + [ids[|ids| - 1]] == ids;
  }

  /** Only the inputs of the objects count. */
  lemma {:induction false} SameGiven(g: Game, ids: seq<Id>, states: States, inputs: map<Id, Input>,
                                     other: map<Id, Input>)
    requires forall id :: id in ids ==>
      (if id in inputs then inputs[id] else []) == if id in other then other[id] else []
    ensures Played(g, ids, states, inputs) == Played(g, ids, states, other)
    decreases |ids|
  {
    if ids != [] {
      var given := if ids[0] in inputs then inputs[ids[0]] else [];
      SameGiven(g, ids[1..], states[ids[0] := g.step(ids[0], states, given)], inputs, other);
    }
  }

  lemma {:induction false} PlayedKeys(g: Game, ids: seq<Id>, states: States, frames: seq<map<Id, Input>>)
    requires states.Keys == ToSet(ids)
    ensures PlayedAll(g, ids, states, frames).Keys == ToSet(ids)
    decreases |frames|
  {
    if frames != [] {
      PlayedKeys(g, ids, states, frames[..|frames| - 1]);
      TickIsPlayed(g, ids, PlayedAll(g, ids, states, frames[..|frames| - 1]), frames[|frames| - 1]);
    }
  }

  lemma {:induction false} PlayedOn(g: Game, ids: seq<Id>, states: States, frames: seq<map<Id, Input>>,
                                    more: seq<map<Id, Input>>)
    ensures PlayedAll(g, ids, PlayedAll(g, ids, states, frames), more) == PlayedAll(g, ids, states, frames + more)
    decreases |more|
  {
    if more == [] {
      assert frames + more == frames;
    } else {
      var before, all := more[..|more| - 1], frames + more;
      PlayedOn(g, ids, states, frames, before);
      assert all[..|all| - 1] == frames + before && all[|all| - 1] == more[|more| - 1];
    }
  }

  // ---------------------------------------------------------------------------------------------------------- Ticks

  /** The client after it ticks some frames. */
  function TickMany(p: Predictor, frames: seq<map<Id, Input>>): (q: Predictor)
    requires |p.ring| > 0
    ensures |q.ring| == |p.ring|
    decreases |frames|
  {
    if frames == [] then p else Tick(TickMany(p, frames[..|frames| - 1]), frames[|frames| - 1])
  }

  /** What a frame is recorded as: where it took the objects, and what they were given. */
  ghost predicate IsRecorded(p: Predictor, q: Predictor, frames: seq<map<Id, Input>>, i: nat)
    requires |q.ring| > 0 && i < |frames|
  {
    var r := q.ring[Slot(p.next + i, |q.ring|)];
    && r.frame == Some(p.next + i) && r.states == PlayedAll(p.game, p.ids, p.live, frames[..i + 1])
    && r.inputs.Keys == ToSet(p.ids)
    && forall id :: id in p.ids ==> r.inputs[id] == if id in frames[i] then frames[i][id] else []
  }

  /** The inputs reach the game: after a client ticked some frames, its objects are what the game makes of the inputs
      given in each, and the last records of its ring say so. */
  lemma {:induction false} InputsReachTheGame(p: Predictor, frames: seq<map<Id, Input>>)
    requires |p.ring| > 0 && |p.ids| <= MAX_TICKED && p.live.Keys == ToSet(p.ids)
    ensures var q := TickMany(p, frames);
      && q == p.(next := p.next + |frames|, live := PlayedAll(p.game, p.ids, p.live, frames), ring := q.ring)
      && forall i :: 0 <= i < |frames| && |frames| <= i + |p.ring| ==> IsRecorded(p, q, frames, i)
    decreases |frames|
  {
    if frames != [] {
      var before, last := frames[..|frames| - 1], frames[|frames| - 1];
      InputsReachTheGame(p, before);
      OneMoreFrame(p, TickMany(p, before), before, last);
      assert frames == before + [last];
    }
  }

  lemma OneMoreFrame(p: Predictor, q: Predictor, before: seq<map<Id, Input>>, last: map<Id, Input>)
    requires |p.ring| > 0 && |p.ids| <= MAX_TICKED && p.live.Keys == ToSet(p.ids) && |q.ring| == |p.ring|
    requires q == p.(next := p.next + |before|, live := PlayedAll(p.game, p.ids, p.live, before), ring := q.ring)
    requires forall i :: 0 <= i < |before| && |before| <= i + |p.ring| ==> IsRecorded(p, q, before, i)
    ensures var frames, q' := before + [last], Tick(q, last);
      && q' == p.(next := p.next + |frames|, live := PlayedAll(p.game, p.ids, p.live, frames), ring := q'.ring)
      && |q'.ring| == |p.ring|
      && forall i :: 0 <= i < |frames| && |frames| <= i + |p.ring| ==> IsRecorded(p, q', frames, i)
  {
    var frames, q' := before + [last], Tick(q, last);
    assert frames[..|before|] == before;
    TickIsPlayed(p.game, p.ids, q.live, last);
    PlayedKeys(p.game, p.ids, p.live, frames);
    assert Only(q'.live, p.ids) == q'.live;
    forall i | 0 <= i < |frames| && |frames| <= i + |p.ring| ensures IsRecorded(p, q', frames, i) {
      if i < |before| {
        OlderRecord(p, q, before, last, i);
      } else {
        assert frames[..i + 1] == frames;
      }
    }
  }

  lemma OlderRecord(p: Predictor, q: Predictor, before: seq<map<Id, Input>>, last: map<Id, Input>, i: nat)
    requires |p.ring| > 0 && |q.ring| == |p.ring| && q.next == p.next + |before|
    requires i < |before| < i + |p.ring| && IsRecorded(p, q, before, i)
    ensures IsRecorded(p, Tick(q, last), before + [last], i)
  {
    SlotsOfARing(p.next + i, q.next, |p.ring|);
    assert (before + [last])[..i + 1] == before[..i + 1];
  }

  /** With any number of objects, a tick plays the first 255 with what they were given, and records that; a frame
      simulated again plays all of them with what was recorded. */
  lemma TickPlaysTheFirst(p: Predictor, collected: map<Id, Input>, k: nat)
    requires |p.ring| > 0
    ensures var q := Tick(p, collected); var ids := p.ids[..if |p.ids| < 255 then |p.ids| else 255];
      var r := q.ring[Slot(p.next, |p.ring|)];
      && q.live == Played(p.game, ids, p.live, collected) && q.next == p.next + 1 && r.frame == Some(p.next)
      && r.inputs.Keys == ToSet(ids)
      && (forall id :: id in ids ==> r.inputs[id] == if id in collected then collected[id] else [])
      && (forall id :: id in r.states <==> id in ids) && (forall id :: id in ids ==> r.states[id] == q.live[id])
    ensures ReplayOne(p, k).live == Played(p.game, p.ids, p.live, p.ring[Slot(k, |p.ring|)].inputs)
  {
    assert Ticked(p.ids) == p.ids[..if |p.ids| < 255 then |p.ids| else 255];
    TickIsPlayed(p.game, Ticked(p.ids), p.live, collected);
    TickIsPlayed(p.game, p.ids, p.live, p.ring[Slot(k, |p.ring|)].inputs);
  }

  // ---------------------------------------------------------------------------------------------------------- Rewinds

  /** The state of a later frame, when it was `from` after frame `j`. */
  function Since(p: Predictor, frames: seq<map<Id, Input>>, from: States, j: nat, k: nat): States
    requires j <= k < |frames|
  {
    PlayedAll(p.game, p.ids, from, frames[j + 1..k + 1])
  }

  /** The part of a record about what was given. */
  ghost predicate IsGiven(p: Predictor, q: Predictor, frames: seq<map<Id, Input>>, i: nat)
    requires |q.ring| > 0 && i < |frames|
  {
    var inputs := q.ring[Slot(p.next + i, |q.ring|)].inputs;
    forall id :: id in p.ids ==> id in inputs && inputs[id] == if id in frames[i] then frames[i][id] else []
  }

  lemma RecordedIsGiven(p: Predictor, q: Predictor, frames: seq<map<Id, Input>>, j: nat)
    requires |q.ring| > 0 && forall i :: j <= i < |frames| ==> IsRecorded(p, q, frames, i)
    ensures forall i :: j <= i < |frames| ==> IsGiven(p, q, frames, i)
  {
    forall i | j <= i < |frames| ensures IsGiven(p, q, frames, i) {
      assert IsRecorded(p, q, frames, i);
    }
  }

  /** What the ring says was given in the frames after `f`, up to `k`. */
  function InputsAfter(ring: seq<Prediction>, f: nat, k: nat): (r: seq<map<Id, Input>>)
    requires |ring| > 0 && f <= k
    ensures |r| == k - f
  {
    seq(k - f, i requires 0 <= i => ring[Slot(f + 1 + i, |ring|)].inputs)
  }

  lemma {:induction false} ReplayIsPlayed(g: Game, ids: seq<Id>, from: States, ring: seq<Prediction>, f: nat, k: nat)
    requires |ring| > 0 && f <= k
    ensures Replay(g, ids, from, ring, f, k) == PlayedAll(g, ids, from, InputsAfter(ring, f, k))
    decreases k
  {
    if k > f {
      ReplayIsPlayed(g, ids, from, ring, f, k - 1);
      InputsNext(ring, f, k);
      OneMorePlayed(g, ids, from, InputsAfter(ring, f, k - 1), ring[Slot(k, |ring|)].inputs);
    } else {
      assert InputsAfter(ring, f, k) == [];
    }
  }

  lemma InputsNext(ring: seq<Prediction>, f: nat, k: nat)
    requires |ring| > 0 && f < k
    ensures InputsAfter(ring, f, k) == InputsAfter(ring, f, k - 1) + [ring[Slot(k, |ring|)].inputs]
  {}

  lemma OneMorePlayed(g: Game, ids: seq<Id>, from: States, frames: seq<map<Id, Input>>, last: map<Id, Input>)
    ensures PlayedAll(g, ids, from, frames + [last]) == TickAll(g, ids, PlayedAll(g, ids, from, frames), last)
  {
    assert (frames + [last])[..|frames|] == frames;
    TickIsPlayed(g, ids, PlayedAll(g, ids, from, frames), last);
  }

  predicate SameFor(ids: seq<Id>, inputs: map<Id, Input>, other: map<Id, Input>) {
    forall id :: id in ids ==> (if id in inputs then inputs[id] else []) == if id in other then other[id] else []
  }

  lemma {:induction false} SameGivenAll(g: Game, ids: seq<Id>, from: States, xs: seq<map<Id, Input>>,
                                        ys: seq<map<Id, Input>>)
    requires |xs| == |ys| && forall i :: 0 <= i < |xs| ==> SameFor(ids, xs[i], ys[i])
    ensures PlayedAll(g, ids, from, xs) == PlayedAll(g, ids, from, ys)
    decreases |xs|
  {
    if xs != [] {
      SameGivenAll(g, ids, from, xs[..|xs| - 1], ys[..|ys| - 1]);
      SameGiven(g, ids, PlayedAll(g, ids, from, xs[..|xs| - 1]), xs[|xs| - 1], ys[|ys| - 1]);
    }
  }

  lemma ReplayIsPlay(g: Game, ids: seq<Id>, from: States, ring: seq<Prediction>, f: nat, k: nat,
                     played: seq<map<Id, Input>>)
    requires |ring| > 0 && f <= k && |played| == k - f
    requires forall i :: 0 <= i < |played| ==> SameFor(ids, InputsAfter(ring, f, k)[i], played[i])
    ensures Replay(g, ids, from, ring, f, k) == PlayedAll(g, ids, from, played)
  {
    ReplayIsPlayed(g, ids, from, ring, f, k);
    SameGivenAll(g, ids, from, InputsAfter(ring, f, k), played);
  }

  /** The replay of the frames from `j` on is their play. */
  lemma ReplayIsSince(p: Predictor, q: Predictor, frames: seq<map<Id, Input>>, from: States, j: nat, k: nat)
    requires |q.ring| > 0 && j <= k < |frames| && forall i :: j < i < |frames| ==> IsGiven(p, q, frames, i)
    ensures Replay(p.game, p.ids, from, q.ring, p.next + j, p.next + k) == Since(p, frames, from, j, k)
  {
    var _ := GivenAfter(p, q, frames, j, k);
    ReplayIsPlay(p.game, p.ids, from, q.ring, p.next + j, p.next + k, frames[j + 1..k + 1]);
  }

  lemma GivenAfter(p: Predictor, q: Predictor, frames: seq<map<Id, Input>>, j: nat, k: nat)
    returns (given: seq<map<Id, Input>>)
    requires |q.ring| > 0 && j <= k < |frames| && forall i :: j < i < |frames| ==> IsGiven(p, q, frames, i)
    ensures given == InputsAfter(q.ring, p.next + j, p.next + k) && |given| == |frames[j + 1..k + 1]|
    ensures forall i :: 0 <= i < |given| ==> SameFor(p.ids, given[i], frames[j + 1..k + 1][i])
  {
    given := InputsAfter(q.ring, p.next + j, p.next + k);
    forall i | 0 <= i < |given| ensures SameFor(p.ids, given[i], frames[j + 1..k + 1][i]) {
      assert IsGiven(p, q, frames, j + 1 + i);
    }
  }

  /** Whether the client's records are as if the server's state of frame `j` had been played on. */
  ghost predicate IsCorrected(p: Predictor, q: Predictor, frames: seq<map<Id, Input>>, from: States, j: nat)
    requires j < |frames|
  {
    |q.ring| > 0 && forall k :: j <= k < |frames| ==> StatesAt(q, p.next + k) == Since(p, frames, from, j, k)
  }

  /** A correction plays the player's inputs again: after a client ticked some frames, a snapshot of any of them that it
      still has, and that has every object, makes its objects what the game makes of the server's state there with the
      inputs given in the later frames. It's so whether the snapshot differs or not: to compare first, and rewind only
      if something differs, is the same as to rewind every time. */
  lemma CorrectionReplaysInputs(p: Predictor, frames: seq<map<Id, Input>>, q: Predictor, j: nat, server: States)
    requires Inv(p) && |p.ids| <= MAX_TICKED && p.ids != [] && p.predicting && |p.ring| > 0
    requires q == TickMany(p, frames) && j < |frames| <= j + |p.ring| && ToSet(p.ids) <= server.Keys
    requires p.lastReconciled.Some? ==> p.lastReconciled.value < p.next + j
    ensures |q.ring| > 0
    ensures var r := Reconcile(q, p.next + j, Some(server));
      && IsCorrected(p, r, frames, Only(server, p.ids), j)
      && r.next == q.next == p.next + |frames| && r.live == StatesAt(r, q.next - 1)
  {
    TicksAreRecorded(p, frames, j);
    TicksKeepInv(p, frames);
    TickedIsCorrected(p, q, frames, j, server);
  }

  lemma TickedIsCorrected(p: Predictor, q: Predictor, frames: seq<map<Id, Input>>, j: nat, server: States)
    requires HasTicked(p, q, frames, j) && Inv(q) && ToSet(p.ids) <= server.Keys && q.predicting
    requires q.lastReconciled.Some? ==> q.lastReconciled.value < p.next + j
    requires q.ring[Slot(p.next + j, |q.ring|)].frame == Some(p.next + j)
    ensures var r := Reconcile(q, p.next + j, Some(server));
      IsCorrected(p, r, frames, Only(server, p.ids), j) && r.next == q.next && r.live == StatesAt(r, q.next - 1)
  {
    if d :| d in p.ids && Differs(q.ring[Slot(p.next + j, |q.ring|)].states, server, d) {
      DivergedIsCorrected(p, q, frames, j, server, d);
    } else {
      EqualIsCorrected(p, q, frames, j, server);
    }
  }

  /** The client ticked the frames, and has the records from the `j`th one on. */
  ghost predicate HasTicked(p: Predictor, q: Predictor, frames: seq<map<Id, Input>>, j: nat) {
    && |q.ring| > 0 && j < |frames| && q.ids == p.ids && q.game == p.game && q.next == p.next + |frames|
    && p.live.Keys == ToSet(p.ids) && q.live == PlayedAll(p.game, p.ids, p.live, frames)
    && forall i :: j <= i < |frames| ==> IsRecorded(p, q, frames, i)
  }

  lemma TicksAreRecorded(p: Predictor, frames: seq<map<Id, Input>>, j: nat)
    requires |p.ring| > 0 && |p.ids| <= MAX_TICKED && p.live.Keys == ToSet(p.ids) && j < |frames| <= j + |p.ring|
    ensures var q := TickMany(p, frames);
      && HasTicked(p, q, frames, j) && q.ring[Slot(p.next + j, |q.ring|)].frame == Some(p.next + j)
      && q.predicting == p.predicting && q.lastReconciled == p.lastReconciled
  {
    InputsReachTheGame(p, frames);
    assert IsRecorded(p, TickMany(p, frames), frames, j);
  }

  lemma DivergedIsCorrected(p: Predictor, q: Predictor, frames: seq<map<Id, Input>>, j: nat, server: States, d: Id)
    requires HasTicked(p, q, frames, j) && Inv(q) && ToSet(p.ids) <= server.Keys && q.predicting
    requires q.lastReconciled.Some? ==> q.lastReconciled.value < p.next + j
    requires q.ring[Slot(p.next + j, |q.ring|)].frame == Some(p.next + j)
    requires d in p.ids && Differs(q.ring[Slot(p.next + j, |q.ring|)].states, server, d)
    ensures var r := Reconcile(q, p.next + j, Some(server));
      IsCorrected(p, r, frames, Only(server, p.ids), j) && r.next == q.next && r.live == StatesAt(r, q.next - 1)
  {
    RecordedIsGiven(p, q, frames, j);
    var r := RewindIsReplay(q, p.next + j, server, d);
    RewoundIsCorrected(p, q, r, frames, Only(server, p.ids), j);
  }

  /** The objects, and the records from `f` on, are a replay from the state `from`. */
  ghost predicate IsRewound(q: Predictor, r: Predictor, from: States, f: nat) {
    && |q.ring| > 0 && |r.ring| > 0 && f < q.next && r.next == q.next && r.live == StatesAt(r, q.next - 1)
    && forall k :: f <= k < q.next ==> StatesAt(r, k) == Replay(q.game, q.ids, from, q.ring, f, k)
  }

  lemma RewindIsReplay(q: Predictor, f: nat, server: States, d: Id) returns (r: Predictor)
    requires Inv(q) && |q.ring| > 0 && ToSet(q.ids) <= server.Keys && q.predicting && f < q.next
    requires q.lastReconciled.Some? ==> q.lastReconciled.value < f
    requires q.ring[Slot(f, |q.ring|)].frame == Some(f)
    requires d in q.ids && Differs(q.ring[Slot(f, |q.ring|)].states, server, d)
    ensures r == Reconcile(q, f, Some(server)) && IsRewound(q, r, Only(server, q.ids), f)
  {
    r := Reconcile(q, f, Some(server));
    assert Diverged(q.ring[Slot(f, |q.ring|)].states, q.ids, server);
    RewindEqualsReplay(q, f, server);
    ReplayIsRewound(q, r, Only(server, q.ids), f);
  }

  lemma ReplayIsRewound(q: Predictor, r: Predictor, from: States, f: nat)
    requires |q.ring| > 0 && |r.ring| > 0 && f < q.next && r.next == q.next && r.live == Final(q, from, f)
    requires forall k :: f <= k < q.next ==> StatesAt(r, k) == Replay(q.game, q.ids, from, q.ring, f, k)
    ensures IsRewound(q, r, from, f)
  {}

  lemma EqualIsCorrected(p: Predictor, q: Predictor, frames: seq<map<Id, Input>>, j: nat, server: States)
    requires HasTicked(p, q, frames, j) && ToSet(p.ids) <= server.Keys
    requires forall id :: id in p.ids ==> !Differs(q.ring[Slot(p.next + j, |q.ring|)].states, server, id)
    ensures var r := Reconcile(q, p.next + j, Some(server));
      IsCorrected(p, r, frames, Only(server, p.ids), j) && r.next == q.next && r.live == StatesAt(r, q.next - 1)
  {
    assert IsRecorded(p, q, frames, j);
    PlayedKeys(p.game, p.ids, p.live, frames[..j + 1]);
    RecordIsServers(q.ring[Slot(p.next + j, |q.ring|)].states, p.ids, server);
    SameIsCorrected(p, q, frames, Only(server, p.ids), j);
    SameReconciled(q, p.next + j, server);
    LastRecord(p, q, frames, |frames| - 1);
    SameStates(p, q, Reconcile(q, p.next + j, Some(server)), frames, Only(server, p.ids), j);
  }

  lemma LastRecord(p: Predictor, q: Predictor, frames: seq<map<Id, Input>>, k: nat)
    requires |q.ring| > 0 && |frames| == k + 1 && p.live.Keys == ToSet(p.ids) && q.ids == p.ids
      && q.next == p.next + k + 1
    requires IsRecorded(p, q, frames, k) && q.live == PlayedAll(p.game, p.ids, p.live, frames)
    ensures q.live == StatesAt(q, q.next - 1)
  {
    PlayedKeys(p.game, p.ids, p.live, frames);
    assert frames[..k + 1] == frames;
  }

  lemma SameStates(p: Predictor, q: Predictor, r: Predictor, frames: seq<map<Id, Input>>, from: States, j: nat)
    requires j < |frames| && IsCorrected(p, q, frames, from, j) && r.ring == q.ring && r.ids == q.ids
    ensures IsCorrected(p, r, frames, from, j)
  {
    forall k | j <= k < |frames| ensures StatesAt(r, p.next + k) == Since(p, frames, from, j, k) {
      assert StatesAt(q, p.next + k) == Since(p, frames, from, j, k);
    }
  }

  lemma RewoundIsCorrected(p: Predictor, q: Predictor, r: Predictor, frames: seq<map<Id, Input>>, from: States, j: nat)
    requires |q.ring| > 0 && |r.ring| > 0 && j < |frames| && q.ids == p.ids && q.game == p.game
    requires q.next == p.next + |frames| && forall i :: j < i < |frames| ==> IsGiven(p, q, frames, i)
    requires IsRewound(q, r, from, p.next + j)
    ensures IsCorrected(p, r, frames, from, j)
  {
    forall k | j <= k < |frames| ensures StatesAt(r, p.next + k) == Since(p, frames, from, j, k) {
      RewoundAt(p, q, r, frames, from, j, k);
    }
  }

  lemma RewoundAt(p: Predictor, q: Predictor, r: Predictor, frames: seq<map<Id, Input>>, from: States, j: nat, k: nat)
    requires |q.ring| > 0 && |r.ring| > 0 && j <= k < |frames| && q.ids == p.ids && q.game == p.game
    requires forall i :: j < i < |frames| ==> IsGiven(p, q, frames, i)
    requires StatesAt(r, p.next + k) == Replay(q.game, q.ids, from, q.ring, p.next + j, p.next + k)
    ensures StatesAt(r, p.next + k) == Since(p, frames, from, j, k)
  {
    ReplayIsSince(p, q, frames, from, j, k);
  }

  lemma RecordIsServers(states: States, ids: seq<Id>, server: States)
    requires states.Keys == ToSet(ids) && ToSet(ids) <= server.Keys
    requires forall id :: id in ids ==> !Differs(states, server, id)
    ensures states == Only(server, ids)
  {}

  lemma SameReconciled(q: Predictor, f: nat, server: States)
    requires |q.ring| > 0 && forall id :: id in q.ids ==> !Differs(q.ring[Slot(f, |q.ring|)].states, server, id)
    ensures var r := Reconcile(q, f, Some(server));
      r.live == q.live && r.ring == q.ring && r.ids == q.ids && r.next == q.next
  {}

  /** When nothing differs, the records are what a rewind would make. */
  lemma SameIsCorrected(p: Predictor, q: Predictor, frames: seq<map<Id, Input>>, from: States, j: nat)
    requires |q.ring| > 0 && p.live.Keys == ToSet(p.ids) && j < |frames| && q.ids == p.ids
    requires forall i :: j <= i < |frames| ==> IsRecorded(p, q, frames, i)
    requires from == PlayedAll(p.game, p.ids, p.live, frames[..j + 1])
    ensures IsCorrected(p, q, frames, from, j)
  {
    forall k | j <= k < |frames| ensures StatesAt(q, p.next + k) == Since(p, frames, from, j, k) {
      SameAtFrame(p, q, frames, from, j, k);
    }
  }

  lemma SameAtFrame(p: Predictor, q: Predictor, frames: seq<map<Id, Input>>, from: States, j: nat, k: nat)
    requires |q.ring| > 0 && p.live.Keys == ToSet(p.ids) && j <= k < |frames| && q.ids == p.ids
    requires IsRecorded(p, q, frames, k) && from == PlayedAll(p.game, p.ids, p.live, frames[..j + 1])
    ensures StatesAt(q, p.next + k) == Since(p, frames, from, j, k)
  {
    PlayedOn(p.game, p.ids, p.live, frames[..j + 1], frames[j + 1..k + 1]);
    assert frames[..j + 1] + frames[j + 1..k + 1] == frames[..k + 1];
    PlayedKeys(p.game, p.ids, p.live, frames[..k + 1]);
  }

  lemma {:induction false} TicksKeepInv(p: Predictor, frames: seq<map<Id, Input>>)
    requires Inv(p)
    ensures |p.ring| > 0 && Inv(TickMany(p, frames))
    decreases |frames|
  {
    if frames != [] {
      TicksKeepInv(p, frames[..|frames| - 1]);
      TickKeeps(TickMany(p, frames[..|frames| - 1]), frames[|frames| - 1]);
    }
  }

  // ------------------------------------------------------------------------------------------------------- Other steps

  /** A snapshot is ignored exactly when there's nothing to compare it with: the client doesn't predict, has no object
      of its own, compared one as new, or doesn't have the frame. Otherwise it's the last one compared. */
  lemma SnapshotsAreComparedOnce(p: Predictor, f: nat, server: States)
    requires |p.ring| > 0
    ensures var q, has := Reconcile(p, f, Some(server)), f < p.next && p.ring[Slot(f, |p.ring|)].frame == Some(f);
      if p.predicting && p.ids != [] && (p.lastReconciled.None? || p.lastReconciled.value < f) && has
      then q.lastReconciled == Some(f) else q == p
    ensures Reconcile(p, f, None) == p
  {
    RewindKeepsRest(p.(lastReconciled := Some(f)), f, server);
  }

  lemma RewindKeepsRest(p: Predictor, f: nat, server: States)
    requires |p.ring| > 0
    ensures SameRest(p, Rewind(p, f, server))
  {
    ReplayKeepsRest(Rewound(p, f, server), f + 1);
  }

  ghost predicate SameRest(p: Predictor, q: Predictor) {
    && q.game == p.game && q.ids == p.ids && q.next == p.next && q.lastReconciled == p.lastReconciled
    && q.predicting == p.predicting
  }

  lemma {:induction false} ReplayKeepsRest(p: Predictor, k: nat)
    requires |p.ring| > 0
    ensures SameRest(p, ReplayFrom(p, k))
    decreases p.next - k
  {
    if k < p.next && p.ring[Slot(k, |p.ring|)].frame == Some(k) {
      assert SameRest(p, ReplayOne(p, k));
      ReplayKeepsRest(ReplayOne(p, k), k + 1);
    }
  }

  ghost predicate NothingRecorded(p: Predictor) {
    forall i :: 0 <= i < |p.ring| ==> p.ring[i].frame.None?
  }

  /** A prediction that starts, or jumps, forgets every record; one that starts takes what the latest snapshot says of
      its objects, and leaves the ones it lacks. */
  lemma {:induction false} StartsOver(p: Predictor, frame: nat, latest: Option<States>, id: Id)
    requires p.live.Keys == ToSet(p.ids) && id in p.ids
    ensures var q := Start(p, frame, latest);
      && q.predicting && q.next == frame && q.lastReconciled.None? && q.ids == p.ids && NothingRecorded(q)
      && id in q.live && q.live[id] == if latest.Some? && id in latest.value then latest.value[id] else p.live[id]
    ensures var q := Resync(p, frame);
      if p.predicting then q == p.(next := frame, ring := q.ring) && NothingRecorded(q) else q == p
  {
    if latest.Some? { OverlayAt(p.live, p.ids, latest.value, id); }
  }

  /** A client's new objects start as they were found; the ones it had go on. */
  lemma NewObjectsAsFound(p: Predictor, ids: seq<Id>, found: States, id: Id)
    requires id in ids
    ensures var q := SetObjects(p, ids, found);
      && q == p.(ids := ids, live := q.live) && q.live.Keys == ToSet(ids)
      && (id in p.live ==> q.live[id] == p.live[id])
      && (id !in p.live && id in found ==> q.live[id] == found[id])
      && (id !in p.live && id !in found ==> q.live[id] == [])
  {}
}
