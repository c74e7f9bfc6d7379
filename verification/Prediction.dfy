/** Prediction at a client: it simulates its own objects ahead of the server, and when a snapshot disagrees with what it
    predicted, it takes the server's state and simulates the later frames again with the inputs it recorded. */
module Prediction {
  import opened Frames
  import opened Snapshots

  /** The input of an object at a frame. */
  type Input = seq<bool>

  /** The game: what an object becomes in one tick, given the state of every predicted object (the ones before it in the
      order of the ids already ticked) and its input. The engine quantizes the result. */
  datatype Game = Game(step: (Id, States, Input) -> seq<Value>)

  /** A record: what each object was given in a frame, and where that took it. */
  datatype Prediction = Prediction(frame: Option<nat>, inputs: map<Id, Input>, states: States)

  /** `live`: the state of the predicted objects now. `next`: the next frame to predict. */
  datatype Predictor = Predictor(game: Game, ids: seq<Id>, live: States, ring: seq<Prediction>, next: nat,
                                 lastReconciled: Option<nat>, predicting: bool)

  /** Most objects ticked in a frame: the recorded input counts them in a byte. */
  const MAX_TICKED: nat := 255

  function InputOf(inputs: map<Id, Input>, id: Id): Input {
    if id in inputs then inputs[id] else []
  }

  /** Ticks objects one after the other. */
  function TickAll(g: Game, ids: seq<Id>, live: States, inputs: map<Id, Input>): (r: States)
    ensures r.Keys == live.Keys + ToSet(ids)
    decreases |ids|
  {
    if ids == [] then live
    else
      var id, before := ids[|ids| - 1], TickAll(g, ids[..|ids| - 1], live, inputs);
      before[id := g.step(id, before, InputOf(inputs, id))]
  }

  /** The objects a frame ticks. */
  function Ticked(ids: seq<Id>): seq<Id> {
    if |ids| <= MAX_TICKED then ids else ids[..MAX_TICKED]
  }

  function Only(states: States, ids: seq<Id>): States {
    map id | id in states && id in ids :: states[id]
  }

  function Recorded(ids: seq<Id>, inputs: map<Id, Input>): map<Id, Input> {
    map id | id in ids :: InputOf(inputs, id)
  }

  /** client_tick, with the inputs the objects give. */
  function Tick(p: Predictor, collected: map<Id, Input>): Predictor
    requires |p.ring| > 0
  {
    var ids := Ticked(p.ids);
    var live := TickAll(p.game, ids, p.live, collected);
    p.(live := live, next := p.next + 1,
       ring := p.ring[Slot(p.next, |p.ring|) := Prediction(Some(p.next), Recorded(ids, collected), Only(live, ids))])
  }

  /** The server's values instead of the ones of the objects it sent. */
  function Overlay(states: States, ids: seq<Id>, server: States): (r: States)
    ensures r.Keys == states.Keys + (ToSet(ids) * server.Keys)
    decreases |ids|
  {
    if ids == [] then states
    else
      var id, before := ids[|ids| - 1], Overlay(states, ids[..|ids| - 1], server);
      if id in server then before[id := server[id]] else before
  }

  predicate Differs(predicted: States, server: States, id: Id) {
    id in server && (id !in predicted || predicted[id] != server[id])
  }

  /** Whether the prediction of some object isn't what the server says. */
  predicate Diverged(predicted: States, ids: seq<Id>, server: States) {
    exists id :: id in ids && Differs(predicted, server, id)
  }

  /** One frame simulated again. */
  function ReplayOne(p: Predictor, k: nat): (r: Predictor)
    requires |p.ring| > 0
    ensures |r.ring| == |p.ring|
  {
    var record := p.ring[Slot(k, |p.ring|)];
    var live := TickAll(p.game, p.ids, p.live, record.inputs);
    p.(live := live, ring := p.ring[Slot(k, |p.ring|) := record.(states := record.states + Only(live, p.ids))])
  }

  /** Simulates again the frames from `k` on that are recorded. */
  function ReplayFrom(p: Predictor, k: nat): (r: Predictor)
    requires |p.ring| > 0
    ensures |r.ring| == |p.ring|
    decreases p.next - k
  {
    if k >= p.next || p.ring[Slot(k, |p.ring|)].frame != Some(k) then p else ReplayFrom(ReplayOne(p, k), k + 1)
  }

  /** What a rewind starts from. */
  function Rewound(p: Predictor, f: nat, server: States): (r: Predictor)
    requires |p.ring| > 0
    ensures |r.ring| == |p.ring|
  {
    var record := p.ring[Slot(f, |p.ring|)];
    p.(live := Overlay(p.live, p.ids, server),
       ring := p.ring[Slot(f, |p.ring|) := record.(states := Overlay(record.states, p.ids, server))])
  }

  /** Takes the server's state at frame `f` and simulates the later frames again. */
  function Rewind(p: Predictor, f: nat, server: States): Predictor
    requires |p.ring| > 0
  {
    ReplayFrom(Rewound(p, f, server), f + 1)
  }

  /** Whether a snapshot of frame `f` is compared with what was predicted. */
  predicate Compares(p: Predictor, f: nat)
    requires |p.ring| > 0
  {
    && p.predicting && p.ids != [] && (p.lastReconciled.Some? ==> p.lastReconciled.value < f) && f < p.next
    && p.ring[Slot(f, |p.ring|)].frame == Some(f)
  }

  /** client_reconcile, with the snapshot received of the frame, if any. */
  function Reconcile(p: Predictor, f: nat, server: Option<States>): Predictor
    requires |p.ring| > 0
  {
    if !Compares(p, f) || server.None? then p
    else
      var p' := p.(lastReconciled := Some(f));
      if Diverged(p.ring[Slot(f, |p.ring|)].states, p.ids, server.value) then Rewind(p', f, server.value) else p'
  }

  function Cleared(ring: seq<Prediction>): (r: seq<Prediction>)
    ensures |r| == |ring|
  {
    seq(|ring|, i requires 0 <= i < |ring| => ring[i].(frame := None))
  }

  /** client_start_prediction, at a frame, from the latest snapshot if there is one. */
  function Start(p: Predictor, frame: nat, latest: Option<States>): Predictor {
    p.(predicting := true, next := frame, ring := Cleared(p.ring), lastReconciled := None,
       live := if latest.Some? then Overlay(p.live, p.ids, latest.value) else p.live)
  }

  /** client_adjust_speed, when the client is too far off: jumps to another frame. */
  function Resync(p: Predictor, frame: nat): Predictor {
    if p.predicting then p.(next := frame, ring := Cleared(p.ring)) else p
  }

  /** The client got or lost objects of its own. A new one has a net id that no record has: ids are quarantined. */
  function SetObjects(p: Predictor, ids: seq<Id>, found: States): Predictor {
    p.(ids := ids,
       live := map id | id in ids :: if id in p.live then p.live[id] else if id in found then found[id] else [])
  }

  // ----------------------------------------------------------------------------------------------------- Replays

  /** The state at frame `k` when the objects had the state `from` at frame `f` and the recorded inputs after it. */
  function Replay(g: Game, ids: seq<Id>, from: States, ring: seq<Prediction>, f: nat, k: nat): (r: States)
    requires |ring| > 0 && f <= k
    ensures r.Keys >= from.Keys && (from.Keys == ToSet(ids) ==> r.Keys == ToSet(ids))
    decreases k
  {
    if k == f then from
    else TickAll(g, ids, Replay(g, ids, from, ring, f, k - 1), ring[Slot(k, |ring|)].inputs)
  }

  /** The records from `lo` on are valid, one after the other, up to the last frame predicted; no others are. */
  ghost predicate Contiguous(p: Predictor, lo: nat) {
    && |p.ring| > 0 && lo <= p.next <= lo + |p.ring|
    && (forall k :: lo <= k < p.next ==> IsValid(p, k))
    && (forall i :: 0 <= i < |p.ring| ==> p.ring[i].frame.None? || InRange(p, lo, i))
  }

  predicate IsValid(p: Predictor, k: nat)
    requires |p.ring| > 0
  {
    p.ring[Slot(k, |p.ring|)].frame == Some(k)
  }

  predicate InRange(p: Predictor, lo: nat, i: nat)
    requires 0 <= i < |p.ring| && p.ring[i].frame.Some?
  {
    lo <= p.ring[i].frame.value < p.next && Slot(p.ring[i].frame.value, |p.ring|) == i
  }

  /** The objects are as the last record says. */
  ghost predicate Current(p: Predictor, lo: nat)
    requires |p.ring| > 0
  {
    lo < p.next ==> forall id :: id in p.live && id in p.ring[Slot(p.next - 1, |p.ring|)].states ==>
                      p.live[id] == p.ring[Slot(p.next - 1, |p.ring|)].states[id]
  }

  ghost predicate Inv(p: Predictor) {
    p.live.Keys == ToSet(p.ids) && exists lo: nat :: Contiguous(p, lo) && Current(p, lo)
  }

  // -------------------------------------------------------------------------------------------------- Invariant

  lemma ClearedIsInv(p: Predictor)
    requires |p.ring| > 0 && p.live.Keys == ToSet(p.ids) && p.ring == Cleared(p.ring)
    ensures Inv(p)
  {
    assert forall i :: 0 <= i < |p.ring| ==> p.ring[i].frame.None?;
    assert Contiguous(p, p.next) && Current(p, p.next);
  }

  lemma TickKeepsContiguous(p: Predictor, lo: nat, record: Prediction, lo': nat)
    requires Contiguous(p, lo) && record.frame == Some(p.next)
    requires lo' == if p.next == lo + |p.ring| then lo + 1 else lo
    ensures var p' := p.(next := p.next + 1, ring := p.ring[Slot(p.next, |p.ring|) := record]); Contiguous(p', lo')
  {
    var n, p' := |p.ring|, p.(next := p.next + 1, ring := p.ring[Slot(p.next, |p.ring|) := record]);
    forall k | lo' <= k < p'.next ensures IsValid(p', k) {
      SlotsOfARing(k, p.next, n);
      if k < p.next { assert IsValid(p, k); }
    }
    forall i | 0 <= i < n ensures p'.ring[i].frame.None? || InRange(p', lo', i) {
      if i != Slot(p.next, n) && p.ring[i].frame.Some? {
        assert InRange(p, lo, i);
        SlotsOfARing(lo, p.next, n);
      }
    }
  }

  lemma TickKeeps(p: Predictor, collected: map<Id, Input>)
    requires Inv(p)
    ensures Inv(Tick(p, collected))
  {
    var lo: nat :| Contiguous(p, lo) && Current(p, lo);
    var p' := Tick(p, collected);
    var lo' := if p.next == lo + |p.ring| then lo + 1 else lo;
    TickKeepsContiguous(p, lo, p'.ring[Slot(p.next, |p.ring|)], lo');
    TickedAreOfIds(p.ids);
    assert Contiguous(p', lo') by {
      assert Contiguous(p.(next := p.next + 1, ring := p'.ring), lo');
      SameRing(p.(next := p.next + 1, ring := p'.ring), p', lo');
    }
    assert Current(p', lo');
  }

  lemma SameRing(p: Predictor, p': Predictor, lo: nat)
    requires Contiguous(p, lo) && p'.ring == p.ring && p'.next == p.next
    ensures Contiguous(p', lo)
  {
    forall k | lo <= k < p'.next ensures IsValid(p', k) {
      assert IsValid(p, k);
    }
    forall i | 0 <= i < |p'.ring| ensures p'.ring[i].frame.None? || InRange(p', lo, i) {
      assert p.ring[i].frame.None? || InRange(p, lo, i);
    }
  }

  lemma TickedAreOfIds(ids: seq<Id>)
    ensures ToSet(Ticked(ids)) <= ToSet(ids)
  {}

  lemma SetObjectsKeeps(p: Predictor, ids: seq<Id>, found: States)
    requires Inv(p) && forall id, i :: id in ids && id !in p.live && 0 <= i < |p.ring| ==> id !in p.ring[i].states
    ensures Inv(SetObjects(p, ids, found))
  {
    var p' := SetObjects(p, ids, found);
    var lo: nat :| Contiguous(p, lo) && Current(p, lo);
    SameRing(p, p', lo);
    assert Current(p', lo);
  }

  // ------------------------------------------------------------------------------------------------------ Rewind

  ghost predicate SameInputs(ring: seq<Prediction>, ring': seq<Prediction>) {
    |ring'| == |ring| && forall i :: 0 <= i < |ring| ==>
      ring'[i].frame == ring[i].frame && ring'[i].inputs == ring[i].inputs
  }

  lemma {:induction false} ReplayIgnoresStates(g: Game, ids: seq<Id>, from: States, ring: seq<Prediction>,
                                               ring': seq<Prediction>, f: nat, k: nat)
    requires |ring| > 0 && SameInputs(ring, ring') && f <= k
    ensures Replay(g, ids, from, ring, f, k) == Replay(g, ids, from, ring', f, k)
    decreases k
  {
    if k > f {
      ReplayIgnoresStates(g, ids, from, ring, ring', f, k - 1);
    }
  }

  /** The record of frame `j` with more states. */
  predicate Gains(p: Predictor, q: Predictor, j: nat, states: States)
    requires |p.ring| > 0 && |q.ring| == |p.ring|
  {
    var slot := Slot(j, |p.ring|);
    q.ring[slot] == p.ring[slot].(states := p.ring[slot].states + states)
  }

  /** The record of frame `j` after a replay. */
  ghost predicate IsReplayed(p: Predictor, q: Predictor, from: States, f: nat, j: nat)
    requires |p.ring| > 0 && |q.ring| == |p.ring| && f <= j
  {
    Gains(p, q, j, Replay(p.game, p.ids, from, p.ring, f, j))
  }

  predicate SameRecord(p: Predictor, q: Predictor, j: nat)
    requires |p.ring| > 0 && |q.ring| == |p.ring|
  {
    q.ring[Slot(j, |p.ring|)] == p.ring[Slot(j, |p.ring|)]
  }

  /** The state before frame `k`. */
  function Before(p: Predictor, from: States, f: nat, k: nat): States
    requires |p.ring| > 0 && f < k
  {
    Replay(p.game, p.ids, from, p.ring, f, k - 1)
  }

  /** The state after the last frame predicted. */
  function Final(p: Predictor, from: States, f: nat): States
    requires |p.ring| > 0 && f < p.next
  {
    Replay(p.game, p.ids, from, p.ring, f, p.next - 1)
  }

  lemma SameFinal(p: Predictor, r: Predictor, from: States, f: nat)
    requires |p.ring| > 0 && f < p.next && r.game == p.game && r.ids == p.ids && r.next == p.next
      && SameInputs(p.ring, r.ring)
    ensures Final(p, from, f) == Final(r, from, f)
  {
    ReplayIgnoresStates(p.game, p.ids, from, p.ring, r.ring, f, p.next - 1);
  }

  /** `q` is `p` once the frames from `k` on are simulated again, from the state `from` at frame `f`. */
  ghost predicate ReplayDone(p: Predictor, q: Predictor, lo: nat, from: States, f: nat, k: nat)
    requires |p.ring| > 0 && f < k <= p.next
  {
    && q == p.(live := q.live, ring := q.ring) && Contiguous(q, lo) && SameInputs(p.ring, q.ring)
    && q.live == Final(p, from, f)
    && (forall j :: k <= j < p.next ==> IsReplayed(p, q, from, f, j))
    && (forall j :: lo <= j < k ==> SameRecord(p, q, j))
  }

  lemma ReplayOneKeeps(p: Predictor, lo: nat, f: nat, k: nat, from: States)
    requires Contiguous(p, lo) && lo <= f < k < p.next && from.Keys == ToSet(p.ids)
    requires p.live == Before(p, from, f, k)
    ensures var r := ReplayOne(p, k);
      && Contiguous(r, lo) && SameInputs(p.ring, r.ring) && IsReplayed(p, r, from, f, k)
      && r.live == Before(r, from, f, k + 1)
      && (forall j :: lo <= j < p.next && j != k ==> SameRecord(p, r, j))
  {
    var r := ReplayOne(p, k);
    assert IsValid(p, k);
    assert Only(r.live, p.ids) == r.live;
    forall j | lo <= j < p.next ensures IsValid(r, j) && (j != k ==> SameRecord(p, r, j)) {
      assert IsValid(p, j);
    }
    OnlyStates(p, r, lo);
    ReplayIgnoresStates(p.game, p.ids, from, p.ring, r.ring, f, k);
  }

  lemma {:induction false} Replayed(p: Predictor, lo: nat, f: nat, k: nat, from: States)
    requires Contiguous(p, lo) && lo <= f < k <= p.next && from.Keys == ToSet(p.ids)
    requires p.live == Before(p, from, f, k)
    ensures ReplayDone(p, ReplayFrom(p, k), lo, from, f, k)
    decreases p.next - k
  {
    if k == p.next {
      NothingToReplay(p, lo, f, from);
    } else {
      assert IsValid(p, k);
      var r := ReplayOne(p, k);
      ReplayOneKeeps(p, lo, f, k, from);
      Replayed(r, lo, f, k + 1, from);
      OneThenRest(p, r, ReplayFrom(r, k + 1), lo, from, f, k);
    }
  }

  lemma NothingToReplay(p: Predictor, lo: nat, f: nat, from: States)
    requires Contiguous(p, lo) && lo <= f < p.next && p.live == Before(p, from, f, p.next)
    ensures ReplayDone(p, p, lo, from, f, p.next)
  {
    forall j | lo <= j < p.next ensures SameRecord(p, p, j) {}
  }

  lemma OneThenRest(p: Predictor, r: Predictor, q: Predictor, lo: nat, from: States, f: nat, k: nat)
    requires |p.ring| > 0 && lo <= f < k < p.next && r == p.(live := r.live, ring := r.ring)
      && SameInputs(p.ring, r.ring)
    requires IsReplayed(p, r, from, f, k) && (forall j :: lo <= j < p.next && j != k ==> SameRecord(p, r, j))
    requires ReplayDone(r, q, lo, from, f, k + 1)
    ensures ReplayDone(p, q, lo, from, f, k)
  {
    SameFinal(p, r, from, f);
    SameInputsChain(p.ring, r.ring, q.ring);
    forall j | k <= j < p.next ensures IsReplayed(p, q, from, f, j) {
      assert j == k ==> SameRecord(r, q, k);
      assert j > k ==> IsReplayed(r, q, from, f, j);
      GainsOnce(p, r, q, lo, from, f, k, j);
    }
    forall j | lo <= j < k ensures SameRecord(p, q, j) {
      assert SameRecord(p, r, j) && SameRecord(r, q, j);
    }
  }

  lemma GainsOnce(p: Predictor, r: Predictor, q: Predictor, lo: nat, from: States, f: nat, k: nat, j: nat)
    requires |p.ring| > 0 && lo <= f < k <= j < p.next && r == p.(live := r.live, ring := r.ring)
      && SameInputs(p.ring, r.ring)
    requires |q.ring| == |p.ring|
    requires IsReplayed(p, r, from, f, k) && (forall i :: lo <= i < p.next && i != k ==> SameRecord(p, r, i))
    requires if j == k then SameRecord(r, q, k) else IsReplayed(r, q, from, f, j)
    ensures IsReplayed(p, q, from, f, j)
  {
    var states := Replay(p.game, p.ids, from, p.ring, f, j);
    ReplayIgnoresStates(p.game, p.ids, from, p.ring, r.ring, f, j);
    if j > k {
      assert SameRecord(p, r, j) && Gains(r, q, j, states);
    }
    assert Gains(p, q, j, states);
  }

  lemma SameInputsChain(a: seq<Prediction>, b: seq<Prediction>, c: seq<Prediction>)
    requires SameInputs(a, b) && SameInputs(b, c)
    ensures SameInputs(a, c)
  {
    forall i | 0 <= i < |a| ensures c[i].frame == a[i].frame && c[i].inputs == a[i].inputs {
      assert b[i].frame == a[i].frame && b[i].inputs == a[i].inputs;
    }
  }

  /** The objects of the predictor as the snapshot has them, the others as they are. */
  lemma {:induction false} OverlayAt(states: States, ids: seq<Id>, server: States, id: Id)
    requires id in Overlay(states, ids, server)
    ensures id in ids && id in server ==> Overlay(states, ids, server)[id] == server[id]
    ensures !(id in ids && id in server) ==> id in states && Overlay(states, ids, server)[id] == states[id]
    decreases |ids|
  {
    if ids != [] {
      var last := ids[|ids| - 1];
      assert ids == ids[..|ids| - 1] + [last];
      if id in Overlay(states, ids[..|ids| - 1], server) {
        OverlayAt(states, ids[..|ids| - 1], server, id);
      }
    }
  }

  lemma OverlayCovered(states: States, ids: seq<Id>, server: States)
    requires states.Keys == ToSet(ids) && ToSet(ids) <= server.Keys
    ensures Overlay(states, ids, server) == Only(server, ids)
  {
    var r := Overlay(states, ids, server);
    forall id | id in r ensures r[id] == server[id] {
      OverlayAt(states, ids, server, id);
    }
  }

  /** Whatever the snapshot lacks: the records after `f` hold the replay from the objects' state now, with the server's
      values for the ones it sent. */
  lemma RewindReplays(p: Predictor, lo: nat, f: nat, server: States)
    requires p.live.Keys == ToSet(p.ids) && Contiguous(p, lo) && lo <= f < p.next
    ensures ReplayDone(Rewound(p, f, server), Rewind(p, f, server), lo, Overlay(p.live, p.ids, server), f, f + 1)
    ensures SameInputs(p.ring, Rewound(p, f, server).ring)
    ensures forall j :: f < j < p.next ==> SameRecord(p, Rewound(p, f, server), j)
  {
    var p' := Rewound(p, f, server);
    assert IsValid(p, f);
    OnlyStates(p, p', lo);
    Replayed(p', lo, f, f + 1, Overlay(p.live, p.ids, server));
    forall j | f < j < p.next ensures SameRecord(p, p', j) {
      assert IsValid(p, j);
    }
  }

  lemma OnlyStates(p: Predictor, p': Predictor, lo: nat)
    requires Contiguous(p, lo) && SameInputs(p.ring, p'.ring) && p'.next == p.next
    ensures Contiguous(p', lo)
  {
    forall j | lo <= j < p'.next ensures IsValid(p', j) {
      assert IsValid(p, j);
    }
    forall i | 0 <= i < |p'.ring| ensures p'.ring[i].frame.None? || InRange(p', lo, i) {
      assert p.ring[i].frame.None? || InRange(p, lo, i);
    }
  }

  /** What the record of a frame says of the predicted objects. */
  function StatesAt(p: Predictor, k: nat): States
    requires |p.ring| > 0
  {
    Only(p.ring[Slot(k, |p.ring|)].states, p.ids)
  }

  /** A rewind equals a replay: after a prediction that differs from a snapshot with every predicted object, the record
      of every later frame holds what the inputs recorded after `f` make of the server's state at `f`, and the objects
      are as the last record says. */
  lemma RewindEqualsReplay(p: Predictor, f: nat, server: States)
    requires Inv(p) && Compares(p, f) && Diverged(p.ring[Slot(f, |p.ring|)].states, p.ids, server)
    requires ToSet(p.ids) <= server.Keys
    ensures var q, from := Reconcile(p, f, Some(server)), Only(server, p.ids);
      && q == p.(live := q.live, ring := q.ring, lastReconciled := Some(f)) && |q.ring| == |p.ring|
      && (forall k :: f <= k < p.next ==> IsValid(q, k) && StatesAt(q, k) == Replay(p.game, p.ids, from, p.ring, f, k))
      && q.live == Final(p, from, f)
  {
    var lo: nat :| Contiguous(p, lo) && Current(p, lo);
    var p1 := p.(lastReconciled := Some(f));
    assert InRange(p, lo, Slot(f, |p.ring|));
    SameRing(p, p1, lo);
    RewindReplays(p1, lo, f, server);
    OverlayCovered(p.live, p.ids, server);
    RewoundStates(p, Rewound(p1, f, server), Rewind(p1, f, server), lo, f, server);
  }

  lemma RewoundStates(p: Predictor, p2: Predictor, q: Predictor, lo: nat, f: nat, server: States)
    requires Contiguous(p, lo) && lo <= f < p.next && ToSet(p.ids) <= server.Keys
    requires p2 == Rewound(p.(lastReconciled := Some(f)), f, server)
    requires ReplayDone(p2, q, lo, Only(server, p.ids), f, f + 1) && SameInputs(p.ring, p2.ring)
    ensures q == p.(live := q.live, ring := q.ring, lastReconciled := Some(f)) && |q.ring| == |p.ring|
    ensures forall k :: f <= k < p.next ==>
      IsValid(q, k) && StatesAt(q, k) == Replay(p.game, p.ids, Only(server, p.ids), p.ring, f, k)
    ensures q.live == Final(p, Only(server, p.ids), f)
  {
    SameFinal(p, p2, Only(server, p.ids), f);
    forall k | f <= k < p.next
      ensures IsValid(q, k) && StatesAt(q, k) == Replay(p.game, p.ids, Only(server, p.ids), p.ring, f, k)
    {
      RewoundRecord(p.(lastReconciled := Some(f)), p2, q, lo, f, server, k);
    }
  }

  lemma RewoundRecord(p: Predictor, p2: Predictor, q: Predictor, lo: nat, f: nat, server: States, k: nat)
    requires |p.ring| > 0 && f <= k < p.next && lo <= f && ToSet(p.ids) <= server.Keys && p2 == Rewound(p, f, server)
    requires ReplayDone(p2, q, lo, Only(server, p.ids), f, f + 1) && SameInputs(p.ring, p2.ring)
    ensures StatesAt(q, k) == Replay(p.game, p.ids, Only(server, p.ids), p.ring, f, k)
  {
    var from := Only(server, p.ids);
    if k == f {
      assert SameRecord(p2, q, f);
      FirstRecord(p, f, server, q);
    } else {
      ReplayIgnoresStates(p.game, p.ids, from, p.ring, p2.ring, f, k);
      assert IsReplayed(p2, q, from, f, k);
      LaterRecord(p2.ring[Slot(k, |p.ring|)].states, p.ids, Replay(p.game, p.ids, from, p2.ring, f, k));
    }
  }

  lemma LaterRecord(states: States, ids: seq<Id>, replayed: States)
    requires replayed.Keys == ToSet(ids)
    ensures Only(states + replayed, ids) == replayed
  {}

  lemma FirstRecord(p: Predictor, f: nat, server: States, q: Predictor)
    requires |p.ring| > 0 && |q.ring| == |p.ring| && q.ids == p.ids && ToSet(p.ids) <= server.Keys
    requires q.ring[Slot(f, |p.ring|)].states == Overlay(p.ring[Slot(f, |p.ring|)].states, p.ids, server)
    ensures StatesAt(q, f) == Only(server, p.ids)
  {
    var states := p.ring[Slot(f, |p.ring|)].states;
    forall id | id in p.ids ensures id in StatesAt(q, f) && StatesAt(q, f)[id] == server[id] {
      OverlayAt(states, p.ids, server, id);
    }
  }

  lemma ReconcileKeeps(p: Predictor, f: nat, server: Option<States>)
    requires Inv(p)
    ensures Inv(Reconcile(p, f, server))
  {
    var lo: nat :| Contiguous(p, lo) && Current(p, lo);
    if Compares(p, f) && server.Some? {
      var p' := p.(lastReconciled := Some(f));
      SameRing(p, p', lo);
      assert InRange(p, lo, Slot(f, |p.ring|));
      if Diverged(p.ring[Slot(f, |p.ring|)].states, p.ids, server.value) {
        RewindKeeps(p', lo, f, server.value);
      } else {
        assert Current(p', lo);
      }
    }
  }

  /** The objects end as the last record says, even the ones the snapshot lacks. */
  lemma RewindKeeps(p: Predictor, lo: nat, f: nat, server: States)
    requires p.live.Keys == ToSet(p.ids) && Contiguous(p, lo) && Current(p, lo) && lo <= f < p.next
    ensures Inv(Rewind(p, f, server))
  {
    RewindReplays(p, lo, f, server);
    if f == p.next - 1 { OverlaidIsCurrent(p, f, server); }
    ReplayedIsCurrent(Rewound(p, f, server), Rewind(p, f, server), lo, Overlay(p.live, p.ids, server), f);
  }

  lemma ReplayedIsCurrent(p: Predictor, q: Predictor, lo: nat, from: States, f: nat)
    requires |p.ring| > 0 && lo <= f < p.next && from.Keys == ToSet(p.ids) && ReplayDone(p, q, lo, from, f, f + 1)
    requires f == p.next - 1 ==> Current(p, f) && p.live == from
    ensures Inv(q)
  {
    if f < p.next - 1 {
      assert IsReplayed(p, q, from, f, p.next - 1);
    } else {
      assert SameRecord(p, q, f);
    }
    assert Current(q, lo);
  }

  lemma OverlaidIsCurrent(p: Predictor, f: nat, server: States)
    requires |p.ring| > 0 && p.next == f + 1 && Current(p, f)
    ensures Current(Rewound(p, f, server), f)
  {
    var q, slot := Rewound(p, f, server), Slot(f, |p.ring|);
    forall id | id in q.live && id in q.ring[slot].states ensures q.live[id] == q.ring[slot].states[id] {
      OverlayAt(p.live, p.ids, server, id);
      OverlayAt(p.ring[slot].states, p.ids, server, id);
    }
  }

  // -------------------------------------------------------------------------------------------------- Whole runs

  datatype Action =
    | Starts(frame: nat, latest: Option<States>)
    | Resyncs(frame: nat)
    | Ticks(collected: map<Id, Input>)
    | Reconciles(frame: nat, server: Option<States>)
    | GetsObjects(ids: seq<Id>, found: States)

  function Act(p: Predictor, a: Action): (r: Predictor)
    requires |p.ring| > 0
    ensures |r.ring| == |p.ring|
  {
    match a
    case Starts(frame, latest) => Start(p, frame, latest)
    case Resyncs(frame) => Resync(p, frame)
    case Ticks(collected) => Tick(p, collected)
    case Reconciles(frame, server) => Reconcile(p, frame, server)
    case GetsObjects(ids, found) => SetObjects(p, ids, found)
  }

  /** An object the client gets has a net id no record has: ids are quarantined for longer than the history. */
  ghost predicate CanAct(p: Predictor, a: Action) {
    a.GetsObjects? ==>
      forall id, i :: id in a.ids && id !in p.live && 0 <= i < |p.ring| ==> id !in p.ring[i].states
  }

  ghost predicate Run(p: Predictor, actions: seq<Action>, p': Predictor)
    requires |p.ring| > 0
    decreases |actions|
  {
    if actions == [] then p' == p else CanAct(p, actions[0]) && Run(Act(p, actions[0]), actions[1..], p')
  }

  lemma ActKeeps(p: Predictor, a: Action)
    requires Inv(p) && |p.ring| > 0 && CanAct(p, a)
    ensures Inv(Act(p, a))
  {
    match a
    case Starts(frame, latest) =>
      assert ToSet(p.ids) * p.live.Keys == ToSet(p.ids);
      ClearedIsInv(Start(p, frame, latest));
    case Resyncs(frame) => if p.predicting { ClearedIsInv(Resync(p, frame)); }
    case Ticks(collected) => TickKeeps(p, collected);
    case Reconciles(frame, server) => ReconcileKeeps(p, frame, server);
    case GetsObjects(ids, found) => SetObjectsKeeps(p, ids, found);
  }

  /** In every run the valid records are of consecutive frames that end with the last one predicted, and the objects are
      as the last one says. */
  lemma {:induction false} RecordsAreContiguous(p: Predictor, actions: seq<Action>, p': Predictor)
    requires Inv(p) && |p.ring| > 0 && Run(p, actions, p')
    ensures Inv(p')
    decreases |actions|
  {
    if actions != [] {
      ActKeeps(p, actions[0]);
      RecordsAreContiguous(Act(p, actions[0]), actions[1..], p');
    }
  }

  // ------------------------------------------------------------------------------------------------- The server's

  /** The client ticks once more, with the input that `p` recorded `i` frames after `f`. */
  ghost predicate TicksAgain(p: Predictor, f: nat, clients: seq<Predictor>, i: nat)
    requires |p.ring| > 0 && 0 < i < |clients|
  {
    |clients[i - 1].ring| > 0 && clients[i] == Tick(clients[i - 1], p.ring[Slot(f + i, |p.ring|)].inputs)
  }

  lemma TickReachesAll(p: Predictor, collected: map<Id, Input>)
    requires |p.ring| > 0 && |p.ids| <= MAX_TICKED
    ensures Tick(p, collected).live == TickAll(p.game, p.ids, p.live, collected)
  {}

  /** An object past the most a frame ticks stays as it is, and isn't recorded. */
  lemma UntickedStays(p: Predictor, collected: map<Id, Input>, id: Id)
    requires |p.ring| > 0 && id in p.live && id !in Ticked(p.ids)
    ensures Tick(p, collected).live[id] == p.live[id]
    ensures id !in Tick(p, collected).ring[Slot(p.next, |p.ring|)].states
  {
    OthersStay(p.game, Ticked(p.ids), p.live, collected, id);
  }

  lemma {:induction false} OthersStay(g: Game, ids: seq<Id>, live: States, inputs: map<Id, Input>, id: Id)
    requires id in live && id !in ids
    ensures TickAll(g, ids, live, inputs)[id] == live[id]
    decreases |ids|
  {
    if ids != [] {
      OthersStay(g, ids[..|ids| - 1], live, inputs, id);
    }
  }

  /** The server made its state of frame `f` + `i` from the one before it with the input this client recorded. */
  ghost predicate ServerTicks(p: Predictor, f: nat, truth: seq<States>, i: nat)
    requires |p.ring| > 0 && 0 < i < |truth|
  {
    truth[i] == TickAll(p.game, p.ids, truth[i - 1], p.ring[Slot(f + i, |p.ring|)].inputs)
  }

  lemma {:induction false} ReplayIsServers(p: Predictor, f: nat, truth: seq<States>, i: nat)
    requires |p.ring| > 0 && i < |truth| && forall j :: 0 < j < |truth| ==> ServerTicks(p, f, truth, j)
    ensures Replay(p.game, p.ids, truth[0], p.ring, f, f + i) == truth[i]
    decreases i
  {
    if i > 0 {
      assert ServerTicks(p, f, truth, i);
      ReplayIsServers(p, f, truth, i - 1);
    }
  }

  lemma {:induction false} SameGame(p: Predictor, f: nat, clients: seq<Predictor>, i: nat)
    requires |p.ring| > 0 && i < |clients| && clients[0].ids == p.ids && clients[0].game == p.game
    requires forall j :: 0 < j < |clients| ==> TicksAgain(p, f, clients, j)
    ensures clients[i].ids == p.ids && clients[i].game == p.game
    decreases i
  {
    if i > 0 {
      SameGame(p, f, clients, i - 1);
      assert TicksAgain(p, f, clients, i);
    }
  }

  /** A replay is what ticking from the state `from` of frame `f` would have done, as long as a tick reaches every
      object. */
  lemma ReplayIsTicking(p: Predictor, from: States, f: nat, clients: seq<Predictor>, i: nat)
    requires |p.ring| > 0 && i < |clients| && |p.ids| <= MAX_TICKED
    requires clients[0].live == from && clients[0].ids == p.ids && clients[0].game == p.game
    requires forall j :: 0 < j < |clients| ==> TicksAgain(p, f, clients, j)
    ensures clients[i].live == Replay(p.game, p.ids, from, p.ring, f, f + i)
  {
    var lives := seq(|clients|, j requires 0 <= j < |clients| => clients[j].live);
    forall j | 0 < j < |lives| ensures ServerTicks(p, f, lives, j) {
      SameGame(p, f, clients, j - 1);
      assert TicksAgain(p, f, clients, j);
      TickReachesAll(clients[j - 1], p.ring[Slot(f + j, |p.ring|)].inputs);
    }
    ReplayIsServers(p, f, lives, i);
  }

  /** One rewind is enough: when the server ticks the objects with the inputs the client recorded, no snapshot of a
      later frame differs from the predictions after the rewind, whichever objects it carries. */
  lemma OneRewindIsEnough(p: Predictor, f: nat, server: States, truth: seq<States>, i: nat, later: States)
    requires Inv(p) && Compares(p, f) && Diverged(p.ring[Slot(f, |p.ring|)].states, p.ids, server)
    requires ToSet(p.ids) <= server.Keys && |truth| == p.next - f && truth[0] == Only(server, p.ids) && i < |truth|
    requires forall j :: 0 < j < |truth| ==> ServerTicks(p, f, truth, j)
    requires forall id :: id in p.ids && id in later ==> id in truth[i] && later[id] == truth[i][id]
    ensures var q := Reconcile(p, f, Some(server));
      |q.ring| > 0 && !Diverged(q.ring[Slot(f + i, |q.ring|)].states, q.ids, later)
  {
    var q := Reconcile(p, f, Some(server));
    RewindEqualsReplay(p, f, server);
    ReplayIsServers(p, f, truth, i);
    assert StatesAt(q, f + i) == truth[i];
    forall id | id in q.ids && id in later ensures !Differs(q.ring[Slot(f + i, |q.ring|)].states, later, id) {
      assert id in StatesAt(q, f + i);
    }
  }

  /** Where a rewind starts from is the frame's state exactly when the objects the snapshot lacks are still as they were
      predicted at that frame: nothing puts them back. */
  lemma RewindStartsAtTheFrame(p: Predictor, f: nat, server: States)
    requires |p.ring| > 0 && p.live.Keys == ToSet(p.ids)
    ensures (var states := p.ring[Slot(f, |p.ring|)].states;
             Overlay(p.live, p.ids, server) == Only(Overlay(states, p.ids, server), p.ids) <==>
             forall id :: id in p.ids && id !in server ==> id in states && states[id] == p.live[id])
  {
    var states := p.ring[Slot(f, |p.ring|)].states;
    var from, at := Overlay(p.live, p.ids, server), Overlay(states, p.ids, server);
    assert from.Keys == ToSet(p.ids);
    forall id | id in p.ids && id !in server
      ensures from[id] == p.live[id] && (id in at <==> id in states) && (id in at ==> at[id] == states[id])
    {
      OverlayAt(p.live, p.ids, server, id);
      if id in at { OverlayAt(states, p.ids, server, id); }
    }
    forall id | id in p.ids && id in server ensures id in at && from[id] == at[id] {
      OverlayAt(p.live, p.ids, server, id);
      OverlayAt(states, p.ids, server, id);
    }
    if from == Only(at, p.ids) {
      forall id | id in p.ids && id !in server ensures id in states && states[id] == p.live[id] {
        assert id in Only(at, p.ids);
      }
    }
  }
}
