/** The server, a client and the network between them, over whole runs.

    The network may lose, repeat, reorder and truncate the snapshots: `net` holds every snapshot ever sent, and any of
    them may be delivered at any time, any number of times, while it's no older than the quarantine of the ids. The
    client may acknowledge anything. The server may jump to a later frame, as one that follows another engine's timeline
    does when it's too far behind. What a run records besides the two engines is history: `log`, the values every
    object reached at each frame; `born`, the frame each id was last registered at; `variables`, how many variables that
    object has. */
module DeltaChain {
  import opened Frames
  import opened Snapshots
  import S = SyncServer
  import C = SyncClient

  /** The reliable messages about the objects. */
  datatype Control = Registered(id: Id, variables: nat) | Unregistered(id: Id)

  /** `unsent`: the frame just simulated was not sent yet. `known`: the objects registered at the client. */
  datatype System = System(server: S.Server, unsent: bool, client: C.Client, known: map<Id, nat>,
                           net: set<Snapshot>, control: seq<Control>,
                           log: map<nat, States>, born: map<Id, nat>, variables: map<Id, nat>)
  {
    function H(): nat { |server.history| }
  }

  datatype Action =
    | Simulate(simulated: States)
    | Jump(target: nat, simulated: States)
    | Register(id: Id, variables: nat, relevant: bool, own: bool)
    | Unregister(id: Id)
    | Prune(expired: set<Id>)
    | SetRelevant(id: Id, relevant: bool)
    | Acknowledge(ack: Option<nat>, wantsFull: bool)
    | Send(recent: bool, fits: Fits)
    | Deliver(m: Snapshot)
    | DeliverTruncated(m: Snapshot, kept: nat)
    | DeliverControl
    | Bind(id: Id)
    | Unbind(id: Id)

  /** No message about an id is still on its way, and the client forgot it. */
  ghost predicate Quiet(s: System, id: Id) {
    id !in s.known && forall c :: c in s.control ==> c.id != id
  }

  /** A snapshot still young enough to arrive. */
  predicate Deliverable(s: System, m: Snapshot) {
    m in s.net && s.server.next <= m.frame + 2 * s.H()
  }

  /** Whether no record the ring still has after a jump is more than a quarantine older than the frame jumped to. */
  ghost predicate IsSafeJump(s: System, target: nat)
    requires s.H() > 0
  {
    forall i :: 0 <= i < s.H() && i != Slot(target, s.H()) && s.server.history[i].frame.Some? ==>
      target <= s.server.history[i].frame.value + 2 * s.H()
  }

  predicate CanSimulate(s: System, simulated: States) {
    simulated.Keys == s.server.live.Keys && forall id :: id in simulated ==> |simulated[id]| == s.server.live[id]
  }

  /** Simulates a frame that may not be the next one. */
  ghost function Leap(s: System, target: nat, simulated: States): System
    requires s.H() > 0
  {
    s.(server := S.Tick(s.server.(next := target), simulated), unsent := true, log := s.log[target := simulated])
  }

  ghost predicate Enabled(s: System, a: Action)
    requires s.H() > 0 && |s.client.received| > 0
  {
    match a
    case Simulate(simulated) => CanSimulate(s, simulated)
    case Jump(target, simulated) => CanSimulate(s, simulated) && s.server.next <= target && IsSafeJump(s, target)
    case Register(id, _, _, _) => S.MayUse(s.server, id) && (id in s.born ==> Quiet(s, id))
    case Unregister(id) => id in s.server.live
    case Prune(expired) =>
      expired <= s.server.quarantined.Keys &&
      forall id :: id in expired ==> s.server.quarantined[id] + S.Quarantine(s.server) <= s.server.next
    case SetRelevant(_, _) => true
    case Acknowledge(_, _) => true
    case Send(_, _) => s.unsent && s.server.next > 0
    case Deliver(m) => Deliverable(s, m)
    case DeliverTruncated(m, kept) => Deliverable(s, m) && kept <= |m.entries|
    case DeliverControl => s.control != []
    case Bind(id) => id in s.known
    case Unbind(_) => true
  }

  ghost function Apply(s: System, a: Action): System
    requires s.H() > 0 && |s.client.received| > 0 && Enabled(s, a)
  {
    match a
    case Simulate(simulated) => Leap(s, s.server.next, simulated)
    case Jump(target, simulated) => Leap(s, target, simulated)
    case Register(id, variables, relevant, own) =>
      s.(server := S.Register(s.server, id, variables, relevant, own), born := s.born[id := s.server.next],
         variables := s.variables[id := variables], control := s.control + [Registered(id, variables)])
    case Unregister(id) =>
      s.(server := S.Unregister(s.server, id), control := s.control + [Unregistered(id)])
    case Prune(expired) => s.(server := s.server.(quarantined := s.server.quarantined - expired))
    case SetRelevant(id, relevant) => s.(server := S.SetRelevant(s.server, id, relevant))
    case Acknowledge(ack, wantsFull) => s.(server := S.Acknowledge(s.server, ack, wantsFull))
    case Send(recent, fits) =>
      var (server, sent) := S.Send(s.server, recent, fits);
      s.(server := server, unsent := false, net := s.net + set m | m in sent)
    case Deliver(m) => s.(client := C.Handle(s.client, m))
    case DeliverTruncated(m, kept) =>
      s.(client := C.Handle(s.client, m.(entries := m.entries[..kept], truncated := true)))
    case DeliverControl =>
      var c := s.control[0];
      s.(control := s.control[1..], client := s.client.(bound := s.client.bound - {c.id}),
         known := if c.Registered? then s.known[c.id := c.variables] else s.known - {c.id})
    case Bind(id) => s.(client := s.client.(bound := s.client.bound[id := s.known[id]], needsFull := true))
    case Unbind(id) => s.(client := s.client.(bound := s.client.bound - {id}))
  }

  ghost predicate Initial(s: System) {
    && s.H() > 0 && |s.client.received| == s.H()
    && (forall i :: 0 <= i < s.H() ==> s.server.history[i] == Record(None, map[]) == s.client.received[i])
    && s.server.live == map[] && s.server.ids == [] && s.server.quarantined == map[]
    && s.server.peer.own == {}
    && s.client.pending.None? && s.client.bound == map[]
    && !s.unsent && s.known == map[] && s.net == {} && s.control == []
    && s.log == map[] && s.born == map[] && s.variables == map[]
  }

  // --------------------------------------------------------------------------------------------------- Invariant

  /** The states of a record are states of the log, at its frame. */
  ghost predicate Faithful(states: States, logged: States) {
    forall id :: id in states ==> id in logged && states[id] == logged[id]
  }

  ghost predicate IdsInv(s: System) {
    && s.born.Keys == s.variables.Keys
    && (forall id :: id in s.born ==> s.born[id] <= s.server.next)
    && (forall id :: id in s.server.live ==> id in s.born && s.variables[id] == s.server.live[id])
  }

  /** An id at a logged frame: what was logged is of the object registered last, or of one gone at least a quarantine
      before that; of an object that is gone, its id is in quarantine, or the frame is a quarantine old; and an object
      that was there was logged. */
  ghost predicate IdOk(s: System, f: nat, id: Id)
    requires IdsInv(s) && f in s.log
  {
    && (id in s.log[f] ==>
          && id in s.born
          && (s.born[id] <= f ==> |s.log[f][id]| == s.variables[id])
          && (f < s.born[id] ==> f + 2 * s.H() < s.born[id])
          && (id !in s.server.live ==>
                (id in s.server.quarantined && f < s.server.quarantined[id]) || f + 2 * s.H() < s.server.next))
    && (id in s.server.live && s.born[id] <= f ==> id in s.log[f])
  }

  ghost predicate AgesInv(s: System)
    requires IdsInv(s)
  {
    forall f, id :: f in s.log ==> IdOk(s, f, id)
  }

  /** A record of the server's ring: faithful to the log, no older than a quarantine, with every object that was
      there. */
  ghost predicate RecordOk(s: System, i: nat)
    requires IdsInv(s) && i < s.H()
  {
    var record := s.server.history[i];
    record.states.Keys <= s.server.live.Keys &&
    (record.frame.Some? ==>
      var f := record.frame.value;
      && f in s.log && Slot(f, s.H()) == i && s.server.next <= f + 2 * s.H()
      && Faithful(record.states, s.log[f])
      && forall id :: id in s.server.live && s.born[id] <= f ==> id in record.states)
  }

  ghost predicate HistoryInv(s: System)
    requires IdsInv(s)
  {
    && s.server.Valid()
    && (forall f :: f in s.log ==> f < s.server.next)
    && (forall i :: 0 <= i < s.H() ==> RecordOk(s, i))
    && (s.unsent ==>
          s.server.next > 0 && S.StatesAt(s.server.history, s.server.next - 1).Some?)
  }

  ghost function BaseLog(log: map<nat, States>, base: Option<nat>): States {
    if base.Some? && base.value in log then log[base.value] else map[]
  }

  /** What an entry says is what was logged at its frame, relative to what was logged at its base. */
  ghost predicate EntryOk(e: Entry, logged: States, base: States) {
    match e
    case Same(id) => id in base ==> id in logged && logged[id] == base[id]
    case Delta(id, vars) =>
      id in logged && |vars| == |logged[id]| &&
      forall v :: 0 <= v < |vars| ==>
        (vars[v].Some? ==> vars[v].value == logged[id][v]) &&
        (vars[v].None? ==> id in base && v < |base[id]| && base[id][v] == logged[id][v])
  }

  ghost predicate MessageOk(log: map<nat, States>, m: Snapshot) {
    && C.WellFormed(m) && !m.truncated && DistinctIds(m.entries)
    && m.frame in log && (m.base.Some? ==> m.base.value in log)
    && forall e :: e in m.entries ==> EntryOk(e, log[m.frame], BaseLog(log, m.base))
  }

  /** Two messages of the same frame are the same one, or parts of one snapshot that share no object. */
  ghost predicate SameSnapshot(m: Snapshot, n: Snapshot) {
    m.frame == n.frame ==>
      m.partCount == n.partCount && (m.part == n.part ==> m == n) &&
      (m.part != n.part ==> Ids(m.entries) !! Ids(n.entries))
  }

  ghost predicate NetInv(s: System) {
    && (forall m :: m in s.net ==> MessageOk(s.log, m) && (s.unsent ==> m.frame != s.server.next - 1))
    && (forall m, n :: m in s.net && n in s.net ==> SameSnapshot(m, n))
  }

  ghost predicate ControlInv(s: System) {
    && (forall id :: id in s.known ==> id in s.variables && s.known[id] == s.variables[id])
    && (forall id :: id in s.client.bound ==> id in s.known && s.client.bound[id] == s.known[id])
    && (forall c :: c in s.control ==> c.id in s.variables && (c.Registered? ==> c.variables == s.variables[c.id]))
  }

  ghost predicate ReceivedInv(s: System) {
    && |s.client.received| == s.H()
    && forall i :: 0 <= i < s.H() && s.client.received[i].frame.Some? ==>
         var f := s.client.received[i].frame.value;
         Slot(f, s.H()) == i && f in s.log && Faithful(s.client.received[i].states, s.log[f])
  }

  /** The objects written so far: each once, with what was logged, and each from a part that was taken. */
  ghost predicate WrittenOk(written: seq<Id>, states: States, logged: States) {
    Distinct(written) && forall id :: id in written ==> id in states && id in logged && states[id] == logged[id]
  }

  ghost predicate FromParts(written: seq<Id>, net: set<Snapshot>, p: C.Pending) {
    forall id :: id in written ==>
      exists m :: m in net && m.frame == p.frame && m.part in p.parts && id in Ids(m.entries)
  }

  ghost predicate PendingInv(s: System)
    requires s.H() > 0 && |s.client.received| == s.H()
  {
    s.client.pending.Some? ==>
      var p := s.client.pending.value;
      var record := s.client.received[Slot(p.frame, s.H())];
      && p.frame in s.log && record.frame.None?
      && WrittenOk(s.client.written, record.states, s.log[p.frame])
      && FromParts(s.client.written, s.net, p)
  }

  ghost predicate Inv(s: System) {
    && IdsInv(s) && AgesInv(s) && HistoryInv(s) && NetInv(s) && ControlInv(s) && ReceivedInv(s) && PendingInv(s)
  }

  lemma InitialHolds(s: System)
    requires Initial(s)
    ensures Inv(s)
  {}
}
