/** What a client does with one message: when it takes it, and what that changes. */
module Receiving {
  import opened Frames
  import opened Snapshots
  import opened SyncClient

  /** Whether the ring has a frame. */
  predicate Holds(c: Client, f: nat)
    requires |c.received| > 0
  {
    c.received[Slot(f, |c.received|)].frame == Some(f)
  }

  /** A part is of use when it's newer than what the client finished, its base is there, and no newer snapshot was
      begun. */
  predicate IsUseful(c: Client, m: Snapshot)
    requires |c.received| > 0
  {
    && 1 <= m.partCount <= 64 && m.part < m.partCount
    && (c.latest.Some? ==> m.frame > c.latest.value)
    && (m.base.Some? ==> Holds(c, m.base.value))
    && (c.pending.Some? ==> m.frame >= c.pending.value.frame)
  }

  /** A base in the slot the frame would take can't be decoded from. */
  predicate BaseIsInTheWay(c: Client, m: Snapshot)
    requires |c.received| > 0
  {
    m.base.Some? && Slot(m.base.value, |c.received|) == Slot(m.frame, |c.received|)
  }

  predicate IsOfPending(c: Client, m: Snapshot) {
    c.pending.Some? && c.pending.value.frame == m.frame
  }

  /** A part is taken exactly when it's of use, its base isn't in the way, and it isn't a part of the snapshot begun
      that came already, or that says otherwise how many there are. */
  predicate IsTaken(c: Client, m: Snapshot)
    requires |c.received| > 0
  {
    && IsUseful(c, m) && !BaseIsInTheWay(c, m)
    && (IsOfPending(c, m) ==> m.partCount == c.pending.value.partCount && m.part !in c.pending.value.parts)
  }

  /** The parts of the snapshot that came, with this one. */
  function PartsWith(c: Client, m: Snapshot): set<nat> {
    (if IsOfPending(c, m) then c.pending.value.parts else {}) + {m.part}
  }

  predicate Completes(c: Client, m: Snapshot)
    requires |c.received| > 0
  {
    IsTaken(c, m) && !m.truncated && forall p: nat :: p < m.partCount ==> p in PartsWith(c, m)
  }

  predicate PartsInRange(c: Client) {
    c.pending.Some? ==> forall p :: p in c.pending.value.parts ==> p < c.pending.value.partCount
  }

  /** Whether the parts in range are all of them. */
  lemma AllPartsCame(parts: set<nat>, count: nat)
    requires forall p :: p in parts ==> p < count
    ensures parts == AllParts(count) <==> forall p: nat :: p < count ==> p in parts
  {}

  /** What a message that isn't taken changes: nothing; but a base that's in the way makes the client ask for
      everything. */
  lemma OthersAreDropped(c: Client, m: Snapshot)
    requires |c.received| > 0 && PartsInRange(c) && !IsTaken(c, m)
    ensures var inTheWay := BaseIsInTheWay(c, m) && 1 <= m.partCount <= 64 && m.part < m.partCount
        && (c.latest.Some? ==> m.frame > c.latest.value) && Holds(c, m.base.value);
      Handle(c, m) == if inTheWay then c.(needsFull := true) else c
  {}

  /** What the objects of a part make of the record it's decoded into: the one of the snapshot begun, or one that
      nothing is written in. */
  function Decoded(c: Client, m: Snapshot): Decoding
    requires |c.received| > 0
  {
    var base :=
      if m.base.Some? && Holds(c, m.base.value) then c.received[Slot(m.base.value, |c.received|)].states else map[];
    ReadEntries(Decoding(c.received[Slot(m.frame, |c.received|)].states, if IsOfPending(c, m) then c.written else [],
                         IsOfPending(c, m) && c.pending.value.missing),
                m.entries, base, c.bound)
  }

  /** The client while it decodes the part. */
  function Begun(c: Client, m: Snapshot): Client
    requires |c.received| > 0
  {
    var slot := Slot(m.frame, |c.received|);
    if IsOfPending(c, m) then c
    else c.(pending := Some(Pending(m.frame, m.partCount, {}, false)), written := [],
            received := c.received[slot := Record(None, c.received[slot].states)])
  }

  lemma PartIsBegun(c: Client, m: Snapshot)
    requires |c.received| > 0 && PartsInRange(c) && IsTaken(c, m)
    ensures StartPart(c, m) == Ready(Begun(c, m)) && PartsInRange(Begun(c, m))
  {}

  lemma PartIsDecoded(c: Client, m: Snapshot)
    requires |c.received| > 0 && PartsInRange(c) && IsTaken(c, m)
    ensures DecodePart(Begun(c, m), m) == Decoded(c, m)
  {}

  /** A part that's taken begins its snapshot, or goes on with it: it's decoded into the record of its frame, which
      counts for none until every part came. The last one makes the frame the newest, with the objects that were
      written; a truncated one gives the snapshot up. */
  lemma TakenPart(c: Client, m: Snapshot)
    requires |c.received| > 0 && PartsInRange(c) && IsTaken(c, m)
    ensures var c', slot := Handle(c, m), Slot(m.frame, |c.received|);
      && PartsInRange(c') && c'.latest == (if Completes(c, m) then Some(m.frame) else c.latest)
      && c'.pending.None? == (Completes(c, m) || m.truncated)
      && (c'.pending.Some? ==>
            && c'.pending.value.frame == m.frame && c'.pending.value.partCount == m.partCount
            && c'.pending.value.parts == PartsWith(c, m))
      && (forall i :: 0 <= i < |c.received| && i != slot ==> c'.received[i] == c.received[i])
      && c'.written == Decoded(c, m).written
      && c'.received[slot].states == (if Completes(c, m) then DropStale(Decoded(c, m).states, c'.written)
                                      else Decoded(c, m).states)
      && (Completes(c, m) ==> c'.received[slot].frame == Some(m.frame))
      && (!Completes(c, m) ==> c'.received[slot].frame == if IsOfPending(c, m) then c.received[slot].frame else None)
  {
    PartIsBegun(c, m);
    PartIsDecoded(c, m);
    AllPartsCame(PartsWith(c, m), m.partCount);
  }

  /** A client that finishes a snapshot asks for a full one if something is missing from it; a full one with nothing
      missing is what it asked for. Nothing else changes whether it asks. */
  lemma AsksForFull(c: Client, m: Snapshot)
    requires |c.received| > 0 && PartsInRange(c) && IsTaken(c, m)
    ensures Handle(c, m).needsFull ==
      if !Completes(c, m) then c.needsFull
      else if Decoded(c, m).missing then true
      else !m.full && c.needsFull
  {
    PartIsBegun(c, m);
    PartIsDecoded(c, m);
    AllPartsCame(PartsWith(c, m), m.partCount);
  }

  /** The state an entry gives its object, if the client can decode it. */
  function StateOf(e: Entry, base: States, bound: map<Id, nat>): Option<seq<Value>> {
    if e.Same? then Get(base, e.id)
    else if e.id in bound then DecodeVars(e.vars, bound[e.id], Get(base, e.id))
    else None
  }

  /** An entry writes its object's state, once; an object without one isn't written, and is missing if it's bound. No
      other object changes. */
  lemma EntryIsWritten(d: Decoding, e: Entry, base: States, bound: map<Id, nat>)
    ensures var d', state := ReadEntry(d, e, base, bound), StateOf(e, base, bound);
      && d'.missing == (d.missing || (e.id in bound && state.None?))
      && d'.written == (if state.Some? then d.written + [e.id] else d.written)
      && (state.Some? ==> Get(d'.states, e.id) == state)
      && (state.None? && e.Delta? && e.id in bound ==> e.id !in d'.states)
      && (forall id :: id != e.id ==> Get(d'.states, id) == Get(d.states, id))
  {}

  /** No value is made up: a variable's is the one that travelled, or its base's; and without either there's none. */
  lemma DecodedOrMissing(vars: seq<Option<Value>>, n: nat, base: Option<seq<Value>>)
    ensures var r := DecodeVars(vars, n, base);
      && (r.Some? <==> n <= |vars| && forall v: nat :: v < n ==> vars[v].Some? || (base.Some? && v < |base.value|))
      && (r.Some? ==> |r.value| == n && forall v :: 0 <= v < n ==>
            r.value[v] ==
              if vars[v].Some? then vars[v].value else if base.Some? && v < |base.value| then base.value[v] else 0)
  {}
}
