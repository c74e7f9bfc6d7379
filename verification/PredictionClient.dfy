/** The client's side of prediction as it works: a ring of predictions and the objects' state, updated in place. */
module PredictionClient {
  import opened Frames
  import opened Snapshots
  import opened Prediction

  /** Objects ticked one after the other into a record: their states, and with `collect` their inputs. */
  function TickInto(g: Game, ids: seq<Id>, live: States, record: Prediction, inputs: map<Id, Input>, collect: bool)
    : (States, Prediction)
    decreases |ids|
  {
    if ids == [] then (live, record)
    else
      var id, before := ids[|ids| - 1], TickInto(g, ids[..|ids| - 1], live, record, inputs, collect);
      TickedInto(id, before.0, before.1, g.step(id, before.0, InputOf(inputs, id)), InputOf(inputs, id), collect)
  }

  function TickedInto(id: Id, live: States, record: Prediction, value: seq<Value>, input: Input, collect: bool)
    : (States, Prediction)
  {
    (live[id := value], record.(inputs := if collect then record.inputs[id := input] else record.inputs,
                                states := record.states[id := value]))
  }

  lemma {:induction false} TickIntoIs(g: Game, ids: seq<Id>, live: States, record: Prediction, inputs: map<Id, Input>,
                                      collect: bool)
    ensures var r, after := TickInto(g, ids, live, record, inputs, collect), TickAll(g, ids, live, inputs);
      r == (after, Prediction(record.frame, if collect then record.inputs + Recorded(ids, inputs) else record.inputs,
                              record.states + Only(after, ids)))
    decreases |ids|
  {
    if ids == [] {
      assert record.states + Only(live, ids) == record.states && record.inputs + Recorded(ids, inputs) == record.inputs;
    } else {
      var id, before := ids[|ids| - 1], ids[..|ids| - 1];
      TickIntoIs(g, before, live, record, inputs, collect);
      var states := TickAll(g, before, live, inputs);
      assert ids == before + [id];
      OneMore(before, id, states, g.step(id, states, InputOf(inputs, id)), inputs, record);
    }
  }

  lemma TickIsFresh(g: Game, ids: seq<Id>, live: States, frame: nat, inputs: map<Id, Input>)
    ensures var after := TickAll(g, ids, live, inputs);
      TickInto(g, ids, live, Prediction(Some(frame), map[], map[]), inputs, true) ==
      (after, Prediction(Some(frame), Recorded(ids, inputs), Only(after, ids)))
  {
    TickIntoIs(g, ids, live, Prediction(Some(frame), map[], map[]), inputs, true);
    var after := TickAll(g, ids, live, inputs);
    assert map[] + Recorded(ids, inputs) == Recorded(ids, inputs) && map[] + Only(after, ids) == Only(after, ids);
  }

  lemma OneMore(ids: seq<Id>, id: Id, states: States, value: seq<Value>, inputs: map<Id, Input>, record: Prediction)
    ensures record.states + Only(states[id := value], ids + [id]) == (record.states + Only(states, ids))[id := value]
    ensures record.inputs + Recorded(ids + [id], inputs) ==
            (record.inputs + Recorded(ids, inputs))[id := InputOf(inputs, id)]
  {}

  /** Only one slot of a ring changed. */
  ghost predicate Others(ring: seq<Prediction>, before: seq<Prediction>, slot: nat) {
    |ring| == |before| && forall k :: 0 <= k < |ring| && k != slot ==> ring[k] == before[k]
  }

  lemma OnlySlot(ring: seq<Prediction>, before: seq<Prediction>, slot: nat)
    requires Others(ring, before, slot) && slot < |ring|
    ensures ring == before[slot := ring[slot]]
  {}

  class Client {
    const game: Game
    var ids: seq<Id>
    var live: States
    const predictions: array<Prediction>
    var next: nat
    var lastReconciled: Option<nat>
    var predicting: bool

    constructor (game: Game, historySize: nat)
      requires historySize > 0
      ensures View() == Predictor(game, [], map[], seq(historySize, i => Prediction(None, map[], map[])), 0, None,
                                  false)
      ensures Inv(View()) && fresh(predictions)
    {
      this.game := game;
      ids, live, next, lastReconciled, predicting := [], map[], 0, None, false;
      predictions := new Prediction[historySize](i => Prediction(None, map[], map[]));
      new;
      assert View().ring == Cleared(View().ring);
      ClearedIsInv(View());
    }

    ghost function View(): (p: Predictor)
      reads this, predictions
      ensures |p.ring| == predictions.Length
    {
      Predictor(game, ids, live, predictions[..], next, lastReconciled, predicting)
    }

    /** client_start_prediction. */
    method StartPrediction(frame: nat, latest: Option<States>)
      modifies this`live, this`next, this`lastReconciled, this`predicting, predictions
      ensures View() == Start(old(View()), frame, latest)
    {
      predicting, next, lastReconciled := true, frame, None;
      ForgetPredictions();
      if latest.Some? {
        TakeServerState(latest.value);
      }
    }

    /** The part of client_adjust_speed that jumps to another frame. */
    method JumpTo(frame: nat)
      modifies this`next, predictions
      ensures View() == Resync(old(View()), frame)
    {
      if predicting {
        next := frame;
        ForgetPredictions();
      }
    }

    method ForgetPredictions()
      modifies predictions
      ensures predictions[..] == Cleared(old(predictions[..]))
    {
      var i := 0;
      while i < predictions.Length
        invariant 0 <= i <= predictions.Length
        invariant forall k :: 0 <= k < i ==> predictions[k] == old(predictions[k]).(frame := None)
        invariant forall k :: i <= k < predictions.Length ==> predictions[k] == old(predictions[k])
      {
        predictions[i] := predictions[i].(frame := None);
        i := i + 1;
      }
    }

    method TakeServerState(server: States)
      modifies this`live
      ensures live == Overlay(old(live), ids, server)
    {
      var i := 0;
      while i < |ids|
        invariant 0 <= i <= |ids|
        invariant live == Overlay(old(live), ids[..i], server)
      {
        assert ids[..i + 1][..i] == ids[..i];
        if ids[i] in server {
          live := live[ids[i] := server[ids[i]]];
        }
        i := i + 1;
      }
      assert ids[..i] == ids;
    }

    /** client_tick, with the input each object gives. */
    method ClientTick(collected: map<Id, Input>)
      requires predictions.Length > 0
      modifies this`live, this`next, predictions
      ensures View() == Tick(old(View()), collected)
    {
      var slot := Slot(next, predictions.Length);
      predictions[slot] := Prediction(Some(next), map[], map[]);
      TickIsFresh(game, Ticked(ids), live, next, collected);
      TickObjects(slot, collected);
      OnlySlot(predictions[..], old(predictions[..]), slot);
      next := next + 1;
    }

    method TickObjects(slot: nat, collected: map<Id, Input>)
      requires slot < predictions.Length
      modifies this`live, predictions
      ensures (live, predictions[slot]) ==
                TickInto(game, Ticked(ids), old(live), old(predictions[slot]), collected, true)
      ensures Others(predictions[..], old(predictions[..]), slot)
    {
      var count := 0;
      while count < |ids| && count < MAX_TICKED
        invariant 0 <= count <= |Ticked(ids)|
        invariant (live, predictions[slot]) ==
                    TickInto(game, ids[..count], old(live), old(predictions[slot]), collected, true)
        invariant Others(predictions[..], old(predictions[..]), slot)
      {
        assert ids[..count + 1][..count] == ids[..count];
        TickObject(ids[count], slot, InputOf(collected, ids[count]), true);
        count := count + 1;
      }
      assert ids[..count] == Ticked(ids);
    }

    /** One object of a frame. */
    method TickObject(id: Id, slot: nat, input: Input, collect: bool)
      requires slot < predictions.Length
      modifies this`live, predictions
      ensures (live, predictions[slot]) ==
                TickedInto(id, old(live), old(predictions[slot]), game.step(id, old(live), input), input, collect)
      ensures Others(predictions[..], old(predictions[..]), slot)
    {
      live := live[id := game.step(id, live, input)];
      var record := predictions[slot];
      if collect {
        record := record.(inputs := record.inputs[id := input]);
      }
      predictions[slot] := record.(states := record.states[id := live[id]]);
    }

    /** client_reconcile, with the snapshot received of the frame, if any. */
    method ClientReconcile(frame: nat, snapshot: Option<States>)
      requires predictions.Length > 0
      modifies this`live, this`lastReconciled, predictions
      ensures View() == Reconcile(old(View()), frame, snapshot)
    {
      if !predicting || ids == [] {
        return;
      }
      if lastReconciled.Some? && frame <= lastReconciled.value {
        return;
      }
      if frame >= next {
        return;
      }
      var slot := Slot(frame, predictions.Length);
      if predictions[slot].frame != Some(frame) || snapshot.None? {
        return;
      }
      lastReconciled := Some(frame);
      var diverged := HasDiverged(predictions[slot].states, snapshot.value);
      if diverged {
        RewindTo(frame, snapshot.value);
      }
    }

    method RewindTo(frame: nat, server: States)
      requires predictions.Length > 0
      modifies this`live, predictions
      ensures View() == Rewind(old(View()), frame, server)
    {
      TakeServerState(server);
      TakeServerRecord(Slot(frame, predictions.Length), server);
      assert View() == Rewound(old(View()), frame, server);
      SimulateAgain(frame + 1);
    }

    method HasDiverged(predicted: States, server: States) returns (diverged: bool)
      ensures diverged <==> Diverged(predicted, ids, server)
    {
      var i := 0;
      while i < |ids|
        invariant 0 <= i <= |ids|
        invariant forall k :: 0 <= k < i ==> !Differs(predicted, server, ids[k])
      {
        if ids[i] in server && (ids[i] !in predicted || predicted[ids[i]] != server[ids[i]]) {
          assert Differs(predicted, server, ids[i]);
          return true;
        }
        i := i + 1;
      }
      return false;
    }

    method TakeServerRecord(slot: nat, server: States)
      requires slot < predictions.Length
      modifies predictions
      ensures predictions[..] == old(predictions[..])[slot :=
                old(predictions[slot]).(states := Overlay(old(predictions[slot]).states, ids, server))]
    {
      var i := 0;
      while i < |ids|
        invariant 0 <= i <= |ids|
        invariant predictions[..] == old(predictions[..])[slot :=
                    old(predictions[slot]).(states := Overlay(old(predictions[slot]).states, ids[..i], server))]
      {
        assert ids[..i + 1][..i] == ids[..i];
        if ids[i] in server {
          predictions[slot] := predictions[slot].(states := predictions[slot].states[ids[i] := server[ids[i]]]);
        }
        i := i + 1;
      }
      assert ids[..i] == ids;
    }

    /** The frames from `first` on that are recorded, one after the other. */
    method SimulateAgain(first: nat)
      requires predictions.Length > 0
      modifies this`live, predictions
      ensures View() == ReplayFrom(old(View()), first)
    {
      var frame := first;
      while frame < next && predictions[Slot(frame, predictions.Length)].frame == Some(frame)
        invariant ReplayFrom(View(), frame) == ReplayFrom(old(View()), first)
        decreases next - frame
      {
        SimulateFrame(frame);
        frame := frame + 1;
      }
    }

    method SimulateFrame(frame: nat)
      requires predictions.Length > 0
      modifies this`live, predictions
      ensures View() == ReplayOne(old(View()), frame)
    {
      var slot := Slot(frame, predictions.Length);
      var inputs, i := predictions[slot].inputs, 0;
      TickIntoIs(game, ids, live, predictions[slot], inputs, false);
      while i < |ids|
        invariant 0 <= i <= |ids|
        invariant (live, predictions[slot]) ==
          TickInto(game, ids[..i], old(live), old(predictions[slot]), inputs, false)
        invariant Others(predictions[..], old(predictions[..]), slot)
      {
        assert ids[..i + 1][..i] == ids[..i];
        TickObject(ids[i], slot, InputOf(inputs, ids[i]), false);
        i := i + 1;
      }
      assert ids[..i] == ids;
      OnlySlot(predictions[..], old(predictions[..]), slot);
    }
  }
}
