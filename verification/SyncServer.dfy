/** The server's side of the replication: its ring of states, the objects it replicates, and what it sends a client.

    The functions say what each operation does to the state of the server; the class updates the fields and the ring in
    place, and every method is proved to do what its function says. One client is modelled: the clients share the ring
    and nothing else. */
module SyncServer {
  import opened Frames
  import opened Snapshots

  /** A client, seen from the server. `own`: the objects it controls. */
  datatype Peer = Peer(acked: Option<nat>, lastFull: Option<nat>, needsFull: bool,
                       relevant: set<Id>, since: map<Id, nat>, own: set<Id>)

  /** `next`: the next frame to simulate. `live`: the objects, with how many variables each has; `ids`: the same ids, in
      order. `quarantined`: released ids, each with its frame. */
  datatype Server = Server(next: nat, history: seq<Record>, live: map<Id, nat>, ids: seq<Id>,
                           quarantined: map<Id, nat>, peer: Peer)
  {
    ghost predicate Valid() {
      && |history| > 0
      && Distinct(ids) && ToSet(ids) == live.Keys
      && 0 !in live
    }
  }

  function Quarantine(s: Server): nat {
    2 * |s.history|
  }

  /** The state of the ring for a frame, if it still has it. */
  function StatesAt(history: seq<Record>, f: nat): Option<States>
    requires |history| > 0
  {
    var record := history[Slot(f, |history|)];
    if record.frame == Some(f) then Some(record.states) else None
  }

  // ------------------------------------------------------------------------------------------------- Operations

  lemma ToSetSnoc(ids: seq<Id>)
    requires ids != []
    ensures ToSet(ids) == ToSet(ids[..|ids| - 1]) + {ids[|ids| - 1]}
    ensures Distinct(ids) ==> Distinct(ids[..|ids| - 1]) && ids[|ids| - 1] !in ToSet(ids[..|ids| - 1])
  {
    assert ids == ids[..|ids| - 1] + [ids[|ids| - 1]];
  }

  ghost predicate Ascending(ids: seq<Id>) {
    forall i, j :: 0 <= i < j < |ids| ==> ids[i] < ids[j]
  }

  ghost predicate AreBelow(ids: set<Id>, last: Id) {
    forall x :: x in ids ==> x < last
  }

  lemma LastIsHighest(ids: seq<Id>)
    requires ids != []
    ensures Ascending(ids) ==> Ascending(ids[..|ids| - 1]) && AreBelow(ToSet(ids[..|ids| - 1]), ids[|ids| - 1])
  {}

  lemma AddHighest(ids: seq<Id>, last: Id)
    ensures Ascending(ids) && AreBelow(ToSet(ids), last) ==> Ascending(ids + [last])
  {
    if AreBelow(ToSet(ids), last) {
      forall i | 0 <= i < |ids| ensures ids[i] < last {
        assert ids[i] in ToSet(ids);
      }
    }
  }

  /** The ids stay in order. */
  function InsertId(ids: seq<Id>, id: Id): (r: seq<Id>)
    ensures ToSet(r) == ToSet(ids) + {id}
    ensures Distinct(ids) && id !in ids ==> Distinct(r)
    ensures Ascending(ids) && id !in ids ==> Ascending(r)
    decreases |ids|
  {
    if ids == [] || ids[|ids| - 1] < id then
      ids + [id]
    else
      ToSetSnoc(ids);
      var before := InsertId(ids[..|ids| - 1], id);
      assert Distinct(ids) && id !in ids ==> ids[|ids| - 1] !in ToSet(before);
      LastIsHighest(ids);
      AddHighest(before, ids[|ids| - 1]);
      before + [ids[|ids| - 1]]
  }

  function RemoveId(ids: seq<Id>, id: Id): (r: seq<Id>)
    ensures ToSet(r) == ToSet(ids) - {id}
    ensures Distinct(ids) ==> Distinct(r)
    ensures Ascending(ids) ==> Ascending(r)
    decreases |ids|
  {
    if ids == [] then []
    else
      ToSetSnoc(ids);
      var last, before := ids[|ids| - 1], RemoveId(ids[..|ids| - 1], id);
      assert Distinct(ids) ==> last !in ToSet(before);
      LastIsHighest(ids);
      AddHighest(before, last);
      if last == id then before else before + [last]
  }

  /** Whether an id may be given to a new object: it's not 0 nor in use, and not in quarantine. */
  predicate MayUse(s: Server, id: Id) {
    id != 0 && id !in s.live && (id in s.quarantined ==> s.quarantined[id] + Quarantine(s) <= s.next)
  }

  /** server_add_object, for a client that controls the object (`own`) or doesn't. */
  function Register(s: Server, id: Id, variables: nat, relevant: bool, own: bool): Server {
    var peer := if own then s.peer.(own := s.peer.own + {id}) else s.peer;
    s.(live := s.live[id := variables], ids := InsertId(s.ids, id), quarantined := s.quarantined - {id},
       peer := if relevant || own then peer.(relevant := peer.relevant + {id}) else peer)
  }

  function Forget(history: seq<Record>, id: Id): (r: seq<Record>)
    ensures |r| == |history|
    ensures forall i :: 0 <= i < |r| ==> r[i] == Record(history[i].frame, history[i].states - {id})
  {
    seq(|history|, i requires 0 <= i < |history| => Record(history[i].frame, history[i].states - {id}))
  }

  function Unregister(s: Server, id: Id): Server {
    if id !in s.live then s else
    s.(live := s.live - {id}, ids := RemoveId(s.ids, id), quarantined := s.quarantined[id := s.next],
       history := Forget(s.history, id),
       peer := s.peer.(relevant := s.peer.relevant - {id}, since := s.peer.since - {id}, own := s.peer.own - {id}))
  }

  /** Simulates a frame: the record of the ring is reused, and every object's slot is overwritten. */
  function Tick(s: Server, simulated: States): Server
    requires |s.history| > 0
  {
    var slot := Slot(s.next, |s.history|);
    s.(next := s.next + 1,
       history := s.history[slot := Record(Some(s.next), s.history[slot].states + simulated)])
  }

  /** server_set_peer_relevant. */
  function SetRelevant(s: Server, id: Id, wanted: bool): Server {
    var relevant := wanted || id in s.peer.own;
    if id !in s.live || relevant == (id in s.peer.relevant) then s
    else if relevant then
      s.(peer := s.peer.(relevant := s.peer.relevant + {id}, since := s.peer.since[id := s.next]))
    else
      s.(peer := s.peer.(relevant := s.peer.relevant - {id}, since := s.peer.since - {id}))
  }

  /** What an inputs message says about the snapshots: the newest one the client has, and whether it wants a full
      one. */
  function Acknowledge(s: Server, ack: Option<nat>, wantsFull: bool): Server {
    var newer := ack.Some? && (s.peer.acked.None? || ack.value > s.peer.acked.value);
    s.(peer := s.peer.(acked := if newer then ack else s.peer.acked, needsFull := wantsFull || s.peer.needsFull))
  }

  // ---------------------------------------------------------------------------------------------------- Sending

  datatype Choice = Full | Over(base: nat) | Nothing

  /** Whether the ring still has a frame. */
  predicate Available(s: Server, f: Option<nat>)
    requires |s.history| > 0
  {
    f.Some? && StatesAt(s.history, f.value).Some?
  }

  /** What a snapshot is relative to. `recent`: the last full snapshot was sent too recently to be sent again. */
  function ChooseBase(s: Server, recent: bool): Choice
    requires |s.history| > 0
  {
    var p := s.peer;
    var fullRecent := p.lastFull.Some? && recent;
    if p.needsFull && !fullRecent then Full
    else if Available(s, p.acked) && (p.lastFull.None? || p.lastFull.value <= p.acked.value) then Over(p.acked.value)
    else if Available(s, p.lastFull) && fullRecent then Over(p.lastFull.value)
    else if Available(s, p.acked) then Over(p.acked.value)
    else if fullRecent then Nothing
    else Full
  }

  predicate Confirmed(p: Peer, id: Id) {
    id in p.since && p.acked.Some? && p.since[id] <= p.acked.value
  }

  /** The values an object's entry is relative to: none when it became relevant again after the base. */
  function BaseValues(s: Server, base: Option<nat>, id: Id): Option<seq<Value>>
    requires |s.history| > 0
  {
    if base.None? then None
    else if id in s.peer.since && !Confirmed(s.peer, id) && s.peer.since[id] > base.value then None
    else Get(s.history[Slot(base.value, |s.history|)].states, id)
  }

  function EntryFor(s: Server, f: nat, base: Option<nat>, id: Id): (e: Entry)
    requires |s.history| > 0
    ensures e.id == id
  {
    EncodeEntry(id, Get(s.history[Slot(f, |s.history|)].states, id), BaseValues(s, base, id))
  }

  function EntriesFor(s: Server, f: nat, base: Option<nat>, ids: seq<Id>): seq<Entry>
    requires |s.history| > 0
    decreases |ids|
  {
    if ids == [] then []
    else
      var id, before := ids[|ids| - 1], EntriesFor(s, f, base, ids[..|ids| - 1]);
      if id in s.peer.relevant then before + [EntryFor(s, f, base, id)] else before
  }

  function Messages(full: bool, f: nat, base: Option<nat>, parts: seq<seq<Entry>>): seq<Snapshot> {
    seq(|parts|, p requires 0 <= p < |parts| => Snapshot(full, f, base, p, |parts|, parts[p], false))
  }

  function BaseOf(choice: Choice): Option<nat> {
    if choice.Over? then Some(choice.base) else None
  }

  function PartsToSend(s: Server, choice: Choice, fits: Fits): seq<seq<Entry>>
    requires |s.history| > 0 && s.next > 0
  {
    Split(EntriesFor(s, s.next - 1, BaseOf(choice), s.ids), choice.Full?, fits)
  }

  /** The relevant objects, of some, that the client acknowledged since they became relevant. */
  function ConfirmedIn(p: Peer, ids: seq<Id>): set<Id> {
    set id | id in ids && id in p.relevant && Confirmed(p, id)
  }

  /** server_send_snapshot, for the frame just simulated. */
  function Send(s: Server, recent: bool, fits: Fits): (Server, seq<Snapshot>)
    requires |s.history| > 0 && s.next > 0
  {
    var f := s.next - 1;
    var choice := ChooseBase(s, recent);
    if choice.Nothing? then (s, [])
    else
      var p := s.peer.(since := s.peer.since - ConfirmedIn(s.peer, s.ids));
      (s.(peer := if choice.Full? then p.(needsFull := false, lastFull := Some(f)) else p),
       Messages(choice.Full?, f, BaseOf(choice), PartsToSend(s, choice, fits)))
  }

  /** The entries name each relevant object once, in order, and nothing else. */
  lemma {:induction false} EntriesAreRelevant(s: Server, f: nat, base: Option<nat>, ids: seq<Id>)
    requires |s.history| > 0 && Distinct(ids)
    ensures var es := EntriesFor(s, f, base, ids);
      DistinctIds(es) && Ids(es) == ToSet(ids) * s.peer.relevant &&
      forall e :: e in es ==> e == EntryFor(s, f, base, e.id)
    decreases |ids|
  {
    if ids != [] {
      var before := ids[..|ids| - 1];
      EntriesAreRelevant(s, f, base, before);
      assert ids == before + [ids[|ids| - 1]];
      var es := EntriesFor(s, f, base, before);
      assert forall e :: e in es ==> e.id in Ids(es);
      var all := EntriesFor(s, f, base, ids);
      assert Ids(all) == if ids[|ids| - 1] in s.peer.relevant then Ids(es) + {ids[|ids| - 1]} else Ids(es) by {
        if ids[|ids| - 1] in s.peer.relevant { assert all == es + [EntryFor(s, f, base, ids[|ids| - 1])]; }
      }
      assert ToSet(ids) == ToSet(before) + {ids[|ids| - 1]};
    }
  }

  lemma PartsHoldRelevant(s: Server, choice: Choice, fits: Fits)
    requires s.Valid() && s.next > 0
    ensures var parts := PartsToSend(s, choice, fits);
      1 <= |parts| <= MAX_PARTS && PartitionsIds(parts, s.live.Keys * s.peer.relevant) &&
      forall p, e :: 0 <= p < |parts| && e in parts[p] ==> e == EntryFor(s, s.next - 1, BaseOf(choice), e.id)
  {
    var es := EntriesFor(s, s.next - 1, BaseOf(choice), s.ids);
    EntriesAreRelevant(s, s.next - 1, BaseOf(choice), s.ids);
    SplitComplete(es, choice.Full?, fits);
    SplitPartitions(es, choice.Full?, fits);
    forall p, e | 0 <= p < |PartsToSend(s, choice, fits)| && e in PartsToSend(s, choice, fits)[p]
      ensures e == EntryFor(s, s.next - 1, BaseOf(choice), e.id)
    {
      PartIsSlice(PartsToSend(s, choice, fits), p);
      SliceIds(es, PartStart(PartsToSend(s, choice, fits), p), PartsToSend(s, choice, fits)[p]);
    }
  }

  /** Whether a list of messages holds an object in exactly one part. */
  ghost predicate InExactlyOnePart(sent: seq<Snapshot>, id: Id) {
    exists p :: 0 <= p < |sent| && id in Ids(sent[p].entries) &&
      forall q :: 0 <= q < |sent| && q != p ==> id !in Ids(sent[q].entries)
  }

  /** The parts after the first `i` objects, one turn of the engine's loop at a time. */
  function PartsAfter(s: Server, choice: Choice, i: nat, fits: Fits): (parts: seq<seq<Entry>>)
    requires |s.history| > 0 && s.next > 0 && i <= |s.ids|
    ensures |parts| > 0
  {
    if i == 0 then [[]]
    else
      var before, id := PartsAfter(s, choice, i - 1, fits), s.ids[i - 1];
      if id in s.peer.relevant
      then AddEntry(before, EntryFor(s, s.next - 1, BaseOf(choice), id), choice.Full?, fits)
      else before
  }

  lemma {:induction false} PartsAfterIsSplit(s: Server, choice: Choice, i: nat, fits: Fits)
    requires |s.history| > 0 && s.next > 0 && i <= |s.ids|
    ensures PartsAfter(s, choice, i, fits) ==
      Split(EntriesFor(s, s.next - 1, BaseOf(choice), s.ids[..i]), choice.Full?, fits)
  {
    if i > 0 {
      PartsAfterIsSplit(s, choice, i - 1, fits);
      assert s.ids[..i][..i - 1] == s.ids[..i - 1];
      if s.ids[i - 1] in s.peer.relevant {
        var es, e := EntriesFor(s, s.next - 1, BaseOf(choice), s.ids[..i - 1]),
          EntryFor(s, s.next - 1, BaseOf(choice), s.ids[i - 1]);
        assert EntriesFor(s, s.next - 1, BaseOf(choice), s.ids[..i]) == es + [e];
        assert (es + [e])[..|es|] == es;
      }
    }
  }

  lemma PartsStep(s: Server, choice: Choice, i: nat, fits: Fits)
    requires |s.history| > 0 && s.next > 0 && i < |s.ids|
    ensures PartsAfter(s, choice, i + 1, fits) ==
      if s.ids[i] in s.peer.relevant
      then AddEntry(PartsAfter(s, choice, i, fits), EntryFor(s, s.next - 1, BaseOf(choice), s.ids[i]), choice.Full?,
                    fits)
      else PartsAfter(s, choice, i, fits)
  {}

  lemma ConfirmedStep(p: Peer, ids: seq<Id>, i: nat)
    requires i < |ids|
    ensures ConfirmedIn(p, ids[..i + 1]) ==
      ConfirmedIn(p, ids[..i]) + if ids[i] in p.relevant && Confirmed(p, ids[i]) then {ids[i]} else {}
  {
    assert ids[..i + 1] == ids[..i] + [ids[i]];
  }

  /** Every relevant object is in exactly one part of what is sent, and the parts are numbered from 0 to at most 63. */
  lemma SendIsComplete(s: Server, recent: bool, fits: Fits)
    requires s.Valid() && s.next > 0
    ensures var sent := Send(s, recent, fits).1;
      |sent| <= MAX_PARTS &&
      (forall p :: 0 <= p < |sent| ==> sent[p].part == p && sent[p].partCount == |sent|) &&
      (sent != [] ==> forall id :: id in s.live && id in s.peer.relevant ==> InExactlyOnePart(sent, id))
  {
    var choice := ChooseBase(s, recent);
    if !choice.Nothing? {
      PartsHoldRelevant(s, choice, fits);
      forall id | id in s.live && id in s.peer.relevant ensures InExactlyOnePart(Send(s, recent, fits).1, id) {
        HeldOnce(choice.Full?, s.next - 1, BaseOf(choice), PartsToSend(s, choice, fits), s.live.Keys * s.peer.relevant,
                 id);
      }
    }
  }

  lemma HeldOnce(full: bool, f: nat, base: Option<nat>, parts: seq<seq<Entry>>, ids: set<Id>, id: Id)
    requires PartitionsIds(parts, ids) && id in ids
    ensures InExactlyOnePart(Messages(full, f, base, parts), id)
  {
    var sent := Messages(full, f, base, parts);
    var p :| 0 <= p < |parts| && id in Ids(parts[p]);
    assert id in Ids(sent[p].entries);
    forall q | 0 <= q < |sent| && q != p ensures id !in Ids(sent[q].entries) {
      assert Ids(sent[q].entries) == Ids(parts[q]);
      if q < p { assert Ids(parts[q]) !! Ids(parts[p]); } else { assert Ids(parts[p]) !! Ids(parts[q]); }
    }
  }

  // ------------------------------------------------------------------------------------------------------ Engine

  class SyncServer {
    var next: nat
    const history: array<Record>
    var live: map<Id, nat>
    var ids: seq<Id>
    var quarantined: map<Id, nat>
    var peer: Peer

    ghost function View(): Server
      reads this, history
    {
      Server(next, history[..], live, ids, quarantined, peer)
    }

    constructor (historySize: nat)
      requires historySize > 0
      ensures fresh(history) && history.Length == historySize && View().Valid()
      ensures View() == Server(0, seq(historySize, _ => Record(None, map[])), map[], [], map[],
                               Peer(None, None, true, {}, map[], {}))
    {
      next, live, ids, quarantined := 0, map[], [], map[];
      peer := Peer(None, None, true, {}, map[], {});
      history := new Record[historySize](_ => Record(None, map[]));
      new;
      assert history[..] == seq(historySize, _ => Record(None, map[]));
    }

    /** server_tick: `simulated` are the values the objects reach with their inputs. */
    method ServerTick(simulated: States)
      requires View().Valid() && simulated.Keys == live.Keys
      modifies this`next, history
      ensures View() == Tick(old(View()), simulated)
    {
      var slot := Slot(next, history.Length);
      var states := WriteStates(history[slot].states, ids, simulated);
      assert states == history[slot].states + simulated;
      history[slot] := Record(Some(next), states);
      next := next + 1;
    }

    static method WriteStates(before: States, ids: seq<Id>, simulated: States) returns (states: States)
      requires ToSet(ids) == simulated.Keys
      ensures states == before + simulated
    {
      states := before;
      var i := 0;
      while i < |ids|
        invariant 0 <= i <= |ids|
        invariant states.Keys == before.Keys + ToSet(ids[..i])
        invariant forall id :: id in states ==> states[id] == if id in ids[..i] then simulated[id] else before[id]
      {
        assert ids[i] in ToSet(ids) && ids[..i + 1] == ids[..i] + [ids[i]];
        states := states[ids[i] := simulated[ids[i]]];
        i := i + 1;
      }
      assert ids[..i] == ids;
    }

    /** unregister_object. */
    method UnregisterObject(id: Id)
      requires View().Valid()
      modifies this`live, this`ids, this`quarantined, this`peer, history
      ensures View() == Unregister(old(View()), id)
    {
      if id !in live {
        return;
      }
      live, ids, quarantined := live - {id}, RemoveId(ids, id), quarantined[id := next];
      peer := peer.(relevant := peer.relevant - {id}, since := peer.since - {id}, own := peer.own - {id});
      var i := 0;
      while i < history.Length
        modifies history
        invariant 0 <= i <= history.Length
        invariant forall k :: 0 <= k < i ==> history[k] == Record(old(history[k].frame), old(history[k].states) - {id})
        invariant forall k :: i <= k < history.Length ==> history[k] == old(history[k])
      {
        history[i] := history[i].(states := history[i].states - {id});
        i := i + 1;
      }
      assert history[..] == Forget(old(history[..]), id);
    }

    /** The part of server_handle_inputs about the snapshots. */
    method HandleAck(ack: Option<nat>, wantsFull: bool)
      modifies this`peer
      ensures View() == Acknowledge(old(View()), ack, wantsFull)
    {
      if ack.Some? && (peer.acked.None? || ack.value > peer.acked.value) {
        peer := peer.(acked := ack);
      }
      if wantsFull {
        peer := peer.(needsFull := true);
      }
    }

    /** server_set_peer_relevant. */
    method SetPeerRelevant(id: Id, wanted: bool)
      modifies this`peer
      ensures View() == SetRelevant(old(View()), id, wanted)
    {
      var relevant := wanted || id in peer.own;
      if id !in live || relevant == (id in peer.relevant) {
        return;
      }
      if relevant {
        peer := peer.(relevant := peer.relevant + {id}, since := peer.since[id := next]);
      } else {
        peer := peer.(relevant := peer.relevant - {id}, since := peer.since - {id});
      }
    }

    /** write_object_state: each variable, after whether it changed from the base. */
    method WriteObjectState(values: seq<Value>, base: Option<seq<Value>>) returns (vars: seq<Option<Value>>)
      ensures vars == EncodeVars(values, base)
    {
      vars := [];
      var i := 0;
      while i < |values|
        invariant 0 <= i <= |values|
        invariant vars == EncodeVars(values, base)[..i]
      {
        var changed := base.None? || i >= |base.value| || values[i] != base.value[i];
        vars := vars + [if changed then Some(values[i]) else None];
        i := i + 1;
      }
    }

    /** write_snapshot_entry. */
    method WriteEntry(id: Id, values: Option<seq<Value>>, base: Option<seq<Value>>) returns (e: Entry)
      ensures e == EncodeEntry(id, values, base)
    {
      if values.None? {
        return Same(id);
      }
      var changed := base.None? || |base.value| != |values.value|;
      var i := 0;
      while !changed && i < |values.value|
        invariant 0 <= i <= |values.value|
        invariant !changed ==> base.Some? && |base.value| == |values.value| && base.value[..i] == values.value[..i]
        invariant changed ==> base != values
        decreases |values.value| - i, if changed then 0 else 1
      {
        changed := values.value[i] != base.value[i];
        if !changed { i := i + 1; }
      }
      if !changed {
        assert base.value == base.value[..i] && values.value == values.value[..i];
        return Same(id);
      }
      var vars := WriteObjectState(values.value, base);
      return Delta(id, vars);
    }

    /** server_send_snapshot. */
    method SendSnapshot(recent: bool, fits: Fits) returns (sent: seq<Snapshot>)
      requires View().Valid() && next > 0
      modifies this`peer
      ensures (View(), sent) == Send(old(View()), recent, fits)
    {
      var choice := PickBase(recent);
      if choice.Nothing? {
        return [];
      }
      var parts, since := WriteParts(choice, fits);
      sent := [];
      var part := 0;
      while part < |parts|
        invariant 0 <= part <= |parts|
        invariant sent == Messages(choice.Full?, next - 1, BaseOf(choice), parts)[..part]
      {
        sent := sent + [Snapshot(choice.Full?, next - 1, BaseOf(choice), part, |parts|, parts[part], false)];
        part := part + 1;
      }
      assert sent == Messages(choice.Full?, next - 1, BaseOf(choice), parts);
      peer := peer.(since := since);
      if choice.Full? {
        peer := peer.(needsFull := false, lastFull := Some(next - 1));
      }
    }

    /** Writes the entries of the relevant objects in the parts. Also gives the objects still waiting for the client to
        acknowledge a snapshot that has them. */
    method WriteParts(choice: Choice, fits: Fits) returns (parts: seq<seq<Entry>>, since: map<Id, nat>)
      requires View().Valid() && next > 0
      ensures parts == PartsToSend(View(), choice, fits)
      ensures since == peer.since - ConfirmedIn(peer, ids)
    {
      ghost var s := View();
      parts, since := [[]], peer.since;
      var i := 0;
      while i < |ids|
        invariant 0 <= i <= |ids| && |parts| > 0
        invariant parts == PartsAfter(s, choice, i, fits)
        invariant since == peer.since - ConfirmedIn(peer, ids[..i])
      {
        var id := ids[i];
        ConfirmedStep(peer, ids, i);
        PartsStep(s, choice, i, fits);
        if id in peer.relevant {
          parts := WriteEntryInParts(choice, id, parts, fits);
          if id in peer.since && peer.acked.Some? && peer.since[id] <= peer.acked.value {
            since := since - {id};
          }
        }
        i := i + 1;
      }
      assert ids[..i] == ids;
      PartsAfterIsSplit(s, choice, i, fits);
    }

    method WriteEntryInParts(choice: Choice, id: Id, before: seq<seq<Entry>>, fits: Fits)
      returns (parts: seq<seq<Entry>>)
      requires View().Valid() && next > 0 && |before| > 0
      ensures parts == AddEntry(before, EntryFor(View(), next - 1, BaseOf(choice), id), choice.Full?, fits)
    {
      var e := ObjectEntry(choice, id);
      var last := before[|before| - 1];
      if choice.Full? || fits(last + [e]) || last == [] || |before| >= MAX_PARTS {
        parts := before[|before| - 1 := last + [e]];
      } else {
        parts := before + [[e]];
      }
    }

    method ObjectEntry(choice: Choice, id: Id) returns (e: Entry)
      requires View().Valid() && next > 0
      ensures e == EntryFor(View(), next - 1, BaseOf(choice), id)
    {
      var base := None;
      if choice.Over? {
        base := Get(history[Slot(choice.base, history.Length)].states, id);
      }
      if id in peer.since && !(peer.acked.Some? && peer.since[id] <= peer.acked.value) {
        if !choice.Over? || peer.since[id] > choice.base {
          base := None;
        }
      }
      e := WriteEntry(id, Get(history[Slot(next - 1, history.Length)].states, id), base);
    }

    /** The choice of the base in server_send_snapshot. */
    method PickBase(recent: bool) returns (choice: Choice)
      requires View().Valid()
      ensures choice == ChooseBase(View(), recent)
    {
      var ackedAvailable, fullAvailable := false, false;
      if peer.acked.Some? {
        ackedAvailable := history[Slot(peer.acked.value, history.Length)].frame == peer.acked;
      }
      if peer.lastFull.Some? {
        fullAvailable := history[Slot(peer.lastFull.value, history.Length)].frame == peer.lastFull;
      }
      var fullRecent := peer.lastFull.Some? && recent;
      if peer.needsFull && !fullRecent {
        choice := Full;
      } else if ackedAvailable && (peer.lastFull.None? || peer.lastFull.value <= peer.acked.value) {
        choice := Over(peer.acked.value);
      } else if fullAvailable && fullRecent {
        choice := Over(peer.lastFull.value);
      } else if ackedAvailable {
        choice := Over(peer.acked.value);
      } else if fullRecent {
        choice := Nothing;
      } else {
        choice := Full;
      }
    }
  }
}
