/** The client's side of the replication: the snapshots it received, and the one it's decoding. */
module SyncClient {
  import opened Frames
  import opened Snapshots

  /** How far the snapshot of a frame got: which of its parts were taken. */
  datatype Pending = Pending(frame: nat, partCount: nat, parts: set<nat>, missing: bool)

  /** `bound`: the ids bound to a local object, with how many variables it has. `written`: the ids written in the
      record of the pending snapshot. */
  datatype Client = Client(received: seq<Record>, latest: Option<nat>, pending: Option<Pending>, written: seq<Id>,
                           needsFull: bool, bound: map<Id, nat>)

  /** client_get_received. */
  function Received(c: Client, f: Option<nat>): Option<States>
    requires |c.received| > 0
  {
    if f.None? then None
    else
      var record := c.received[Slot(f.value, |c.received|)];
      if record.frame == f then Some(record.states) else None
  }

  predicate WellFormed(m: Snapshot) {
    1 <= m.partCount <= MAX_PARTS && m.part < m.partCount
  }

  /** The numbers of all the parts. */
  function AllParts(count: nat): (r: set<nat>)
    ensures forall p: nat :: p in r <==> p < count
  {
    if count == 0 then {} else AllParts(count - 1) + {count - 1}
  }

  datatype Start = Ready(client: Client) | Dropped(client: Client)

  /** The checks of client_handle_snapshot, up to the point where the part is decoded: the client is then decoding the
      snapshot's frame. */
  function StartPart(c: Client, m: Snapshot): (r: Start)
    requires |c.received| > 0
    ensures r.Ready? ==> r.client.pending.Some? && |r.client.received| == |c.received|
  {
    var slot := Slot(m.frame, |c.received|);
    if !WellFormed(m) then Dropped(c)
    else if c.latest.Some? && m.frame <= c.latest.value then Dropped(c)
    else if m.base.Some? && Received(c, m.base).None? then Dropped(c)
    else if m.base.Some? && Slot(m.base.value, |c.received|) == slot then Dropped(c.(needsFull := true))
    else if c.pending.Some? && m.frame < c.pending.value.frame then Dropped(c)
    else
      var started :=
        if c.pending.Some? && c.pending.value.frame == m.frame then c
        else c.(pending := Some(Pending(m.frame, m.partCount, {}, false)), written := [],
                received := c.received[slot := c.received[slot].(frame := None)]);
      if started.pending.value.partCount != m.partCount || m.part in started.pending.value.parts
      then Dropped(started) else Ready(started)
  }

  function BaseStates(c: Client, m: Snapshot): States
    requires |c.received| > 0
  {
    var base := Received(c, m.base);
    if base.Some? then base.value else map[]
  }

  function DecodePart(c: Client, m: Snapshot): Decoding
    requires |c.received| > 0 && c.pending.Some?
  {
    ReadEntries(Decoding(c.received[Slot(m.frame, |c.received|)].states, c.written, c.pending.value.missing),
                m.entries, BaseStates(c, m), c.bound)
  }

  /** What client_handle_snapshot does with the objects it decoded, when the message had all of its data. */
  function TakePart(c: Client, m: Snapshot, d: Decoding): Client
    requires |c.received| > 0 && c.pending.Some?
  {
    var slot := Slot(m.frame, |c.received|);
    var pending := c.pending.value.(parts := c.pending.value.parts + {m.part}, missing := d.missing);
    if pending.parts != AllParts(m.partCount) then
      c.(received := c.received[slot := c.received[slot].(states := d.states)],
         pending := Some(pending), written := d.written)
    else
      c.(received := c.received[slot := Record(Some(m.frame), DropStale(d.states, d.written))],
         pending := None, written := d.written, latest := Some(m.frame),
         needsFull := if m.full && !d.missing then false else d.missing || c.needsFull)
  }

  /** client_handle_snapshot. */
  function Handle(c: Client, m: Snapshot): (r: Client)
    requires |c.received| > 0
    ensures |r.received| == |c.received| && r.bound == c.bound
  {
    var start := StartPart(c, m);
    if start.Dropped? then start.client
    else
      var d, slot := DecodePart(start.client, m), Slot(m.frame, |c.received|);
      if m.truncated then
        start.client.(received := start.client.received[slot := start.client.received[slot].(states := d.states)],
                      pending := None, written := d.written)
      else TakePart(start.client, m, d)
  }

  // ------------------------------------------------------------------------------------------------------ Engine

  class SyncClient {
    const received: array<Record>
    var latest: Option<nat>
    var pending: Option<Pending>
    var written: seq<Id>
    var needsFull: bool
    var bound: map<Id, nat>

    ghost function View(): Client
      reads this, received
    {
      Client(received[..], latest, pending, written, needsFull, bound)
    }

    constructor (historySize: nat)
      requires historySize > 0
      ensures fresh(received) && received.Length == historySize
      ensures View() == Client(seq(historySize, _ => Record(None, map[])), None, None, [], false, map[])
    {
      latest, pending, written, needsFull, bound := None, None, [], false, map[];
      received := new Record[historySize](_ => Record(None, map[]));
      new;
      assert received[..] == seq(historySize, _ => Record(None, map[]));
    }

    /** client_handle_snapshot: decodes straight into the record the frame takes in `received`. */
    method HandleSnapshot(m: Snapshot)
      requires received.Length > 0
      modifies this`latest, this`pending, this`written, this`needsFull, received
      ensures View() == Handle(old(View()), m)
    {
      var ready := StartSnapshot(m);
      if ready {
        ReadObjects(m, Slot(m.frame, received.Length));
        FinishPart(m);
      }
    }

    method StartSnapshot(m: Snapshot) returns (ready: bool)
      requires received.Length > 0
      modifies this`pending, this`written, this`needsFull, received
      ensures StartPart(old(View()), m) == if ready then Ready(View()) else Dropped(View())
      ensures ready ==> m.base.Some? ==> Slot(m.base.value, received.Length) != Slot(m.frame, received.Length) &&
                                         received[Slot(m.base.value, received.Length)].frame == m.base
    {
      if m.partCount < 1 || m.partCount > MAX_PARTS || m.part >= m.partCount {
        return false;
      }
      if latest.Some? && m.frame <= latest.value {
        return false;
      }
      var slot := Slot(m.frame, received.Length);
      if m.base.Some? {
        var baseSlot := Slot(m.base.value, received.Length);
        if received[baseSlot].frame != m.base {
          return false;
        }
        if baseSlot == slot {
          needsFull := true;
          return false;
        }
      }
      if pending.None? || pending.value.frame != m.frame {
        if pending.Some? && m.frame < pending.value.frame {
          return false;
        }
        pending, written := Some(Pending(m.frame, m.partCount, {}, false)), [];
        received[slot] := received[slot].(frame := None);
      }
      return pending.value.partCount == m.partCount && m.part !in pending.value.parts;
    }

    /** What follows the objects of a part: once all the parts are in, the record is finished. */
    method FinishPart(m: Snapshot)
      requires received.Length > 0 && pending.Some?
      modifies this`latest, this`pending, this`needsFull, received
      ensures var before, slot := old(View()), Slot(m.frame, received.Length);
        View() ==
          if m.truncated then before.(pending := None)
          else TakePart(before, m, Decoding(before.received[slot].states, before.written, before.pending.value.missing))
    {
      if m.truncated {
        pending := None;
        return;
      }
      var slot := Slot(m.frame, received.Length);
      pending := Some(pending.value.(parts := pending.value.parts + {m.part}));
      if pending.value.parts != AllParts(m.partCount) {
        assert received[..] == received[..][slot := received[slot]];
        return;
      }
      var missing := pending.value.missing;
      received[slot] := Record(Some(m.frame), DropStale(received[slot].states, written));
      pending, latest := None, Some(m.frame);
      if m.full && !missing {
        needsFull := false;
      } else if missing {
        needsFull := true;
      }
    }

    /** client_read_snapshot_objects, into the record of a slot. */
    method ReadObjects(m: Snapshot, slot: nat)
      requires received.Length > 0 && slot == Slot(m.frame, received.Length) && pending.Some?
      requires m.base.Some? ==> Slot(m.base.value, received.Length) != slot &&
                                received[Slot(m.base.value, received.Length)].frame == m.base
      modifies this`written, this`pending, received
      ensures var d := DecodePart(old(View()), m);
        View() == old(View()).(received := old(received[..])[slot := old(received[slot]).(states := d.states)],
                               written := d.written,
                               pending := Some(old(pending.value).(missing := d.missing)))
    {
      ghost var before := View();
      var base: States := map[];
      if m.base.Some? {
        base := received[Slot(m.base.value, received.Length)].states;
      }
      var states: States, ids: seq<Id>, missing, i := received[slot].states, written, pending.value.missing, 0;
      while i < |m.entries|
        invariant 0 <= i <= |m.entries|
        invariant Decoding(states, ids, missing) ==
          ReadEntries(Decoding(before.received[slot].states, before.written, before.pending.value.missing),
                      m.entries[..i], base, bound)
      {
        var e := m.entries[i];
        assert m.entries[..i + 1][..i] == m.entries[..i];
        if e.Same? {
          if e.id in base {
            states, ids := states[e.id := base[e.id]], ids + [e.id];
          } else if e.id in bound {
            missing := true;
          }
        } else if e.id in bound {
          var values := DecodeVars(e.vars, bound[e.id], Get(base, e.id));
          if values.Some? {
            states, ids := states[e.id := values.value], ids + [e.id];
          } else {
            states, missing := states - {e.id}, true;
          }
        }
        i := i + 1;
      }
      assert m.entries[..i] == m.entries;
      written, pending := ids, Some(pending.value.(missing := missing));
      received[slot] := received[slot].(states := states);
    }
  }
}
