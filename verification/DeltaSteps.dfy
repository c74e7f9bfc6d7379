/** Every action of the server, the client and the network keeps the invariant of the two rings, the messages and the
    log. */
module DeltaSteps {
  import opened Frames
  import opened Snapshots
  import opened DeltaChain
  import S = SyncServer
  import C = SyncClient

  // ------------------------------------------------------------------------------------------------------ Server

  /** Without a jump, what the next frame doesn't overwrite stays young enough. */
  lemma NextIsSafe(s: System)
    requires IdsInv(s) && HistoryInv(s) && s.H() > 0
    ensures IsSafeJump(s, s.server.next)
  {
    forall i | 0 <= i < s.H() && s.server.history[i].frame.Some?
      ensures s.server.next <= s.server.history[i].frame.value + 2 * s.H()
    {
      assert RecordOk(s, i);
    }
  }

  /** The frame two rings after that of a record has the same slot. */
  lemma TwoRingsLater(f: nat, h: nat)
    requires h > 0
    ensures Slot(f + 2 * h, h) == Slot(f, h)
  {
    assert Slot(f + 2 * h, h) == Slot(f + h, h);
  }

  ghost predicate PastLog(s: System) {
    forall f :: f in s.log ==> f < s.server.next
  }

  ghost predicate CanLeap(s: System, target: nat, simulated: States) {
    s.H() > 0 && CanSimulate(s, simulated) && s.server.next <= target && IsSafeJump(s, target)
  }

  lemma LeapKeepsRecord(s: System, s': System, target: nat, simulated: States, i: nat)
    requires IdsInv(s) && HistoryInv(s) && i < s.H()
    requires CanLeap(s, target, simulated) && s' == Leap(s, target, simulated) && IdsInv(s')
    ensures RecordOk(s', i)
  {
    assert RecordOk(s, i);
    if i == Slot(target, s.H()) {
      assert s.server.history[i].states + simulated == simulated;
    } else if s.server.history[i].frame.Some? {
      TwoRingsLater(s.server.history[i].frame.value, s.H());
    }
  }

  lemma LeapKeepsIds(s: System, s': System, target: nat, simulated: States)
    requires IdsInv(s) && AgesInv(s) && PastLog(s)
    requires CanLeap(s, target, simulated) && s' == Leap(s, target, simulated)
    ensures IdsInv(s') && AgesInv(s')
  {
    forall f, id | f in s'.log ensures IdOk(s', f, id) {
      if f in s.log { assert IdOk(s, f, id); }
    }
  }

  lemma LeapKeepsNet(s: System, s': System, target: nat, simulated: States)
    requires NetInv(s) && PastLog(s)
    requires CanLeap(s, target, simulated) && s' == Leap(s, target, simulated)
    ensures NetInv(s')
  {
    forall m | m in s.net ensures MessageOk(s'.log, m) {
      LogGrows(s.log, s'.log, m);
    }
  }

  lemma LeapKeepsClient(s: System, s': System, target: nat, simulated: States)
    requires ReceivedInv(s) && s.H() > 0 && PendingInv(s) && ControlInv(s) && PastLog(s)
    requires CanLeap(s, target, simulated) && s' == Leap(s, target, simulated)
    ensures ReceivedInv(s') && PendingInv(s') && ControlInv(s')
  {}

  lemma LeapKeeps(s: System, target: nat, simulated: States)
    requires Inv(s) && CanLeap(s, target, simulated)
    ensures Inv(Leap(s, target, simulated))
  {
    var s' := Leap(s, target, simulated);
    LeapKeepsIds(s, s', target, simulated);
    LeapKeepsNet(s, s', target, simulated);
    LeapKeepsClient(s, s', target, simulated);
    forall i | 0 <= i < s.H() ensures RecordOk(s', i) {
      LeapKeepsRecord(s, s', target, simulated, i);
    }
  }

  lemma LogGrows(log: map<nat, States>, log': map<nat, States>, m: Snapshot)
    requires MessageOk(log, m) && forall f :: f in log ==> f in log' && log'[f] == log[f]
    ensures MessageOk(log', m)
  {}

  lemma RegisterKeepsIds(s: System, s': System, id: Id, variables: nat, relevant: bool, own: bool)
    requires IdsInv(s) && AgesInv(s) && PastLog(s) && s.H() > 0 && |s.client.received| > 0
    requires Enabled(s, Register(id, variables, relevant, own))
      && s' == Apply(s, Register(id, variables, relevant, own))
    ensures IdsInv(s') && AgesInv(s')
  {
    forall f, other | f in s'.log ensures IdOk(s', f, other) {
      assert IdOk(s, f, other);
    }
  }

  lemma RegisterKeepsHistory(s: System, s': System, id: Id, variables: nat, relevant: bool, own: bool)
    requires IdsInv(s) && HistoryInv(s) && |s.client.received| > 0
    requires Enabled(s, Register(id, variables, relevant, own))
      && s' == Apply(s, Register(id, variables, relevant, own))
    requires IdsInv(s')
    ensures HistoryInv(s')
  {
    forall i | 0 <= i < s.H() ensures RecordOk(s', i) {
      assert RecordOk(s, i);
    }
  }

  lemma RegisterKeeps(s: System, id: Id, variables: nat, relevant: bool, own: bool)
    requires Inv(s) && Enabled(s, Register(id, variables, relevant, own))
    ensures Inv(Apply(s, Register(id, variables, relevant, own)))
  {
    var s' := Apply(s, Register(id, variables, relevant, own));
    RegisterKeepsIds(s, s', id, variables, relevant, own);
    RegisterKeepsHistory(s, s', id, variables, relevant, own);
    RegisterKeepsControl(s, s', id, variables, relevant, own);
  }

  lemma RegisterKeepsControl(s: System, s': System, id: Id, variables: nat, relevant: bool, own: bool)
    requires IdsInv(s) && ControlInv(s) && s.H() > 0 && |s.client.received| > 0
    requires Enabled(s, Register(id, variables, relevant, own))
      && s' == Apply(s, Register(id, variables, relevant, own))
    ensures ControlInv(s')
  {}

  lemma UnregisterKeeps(s: System, id: Id)
    requires Inv(s) && Enabled(s, Unregister(id))
    ensures Inv(Apply(s, Unregister(id)))
  {
    var s' := Apply(s, Unregister(id));
    UnregisterKeepsIds(s, s', id);
    forall i | 0 <= i < s.H() ensures RecordOk(s', i) {
      assert RecordOk(s, i);
    }
    assert HistoryInv(s') && ControlInv(s');
  }

  lemma UnregisterKeepsIds(s: System, s': System, id: Id)
    requires IdsInv(s) && AgesInv(s) && PastLog(s) && s.H() > 0 && |s.client.received| > 0
    requires Enabled(s, Unregister(id)) && s' == Apply(s, Unregister(id))
    ensures IdsInv(s') && AgesInv(s')
  {
    forall f, other | f in s'.log ensures IdOk(s', f, other) {
      assert IdOk(s, f, other);
    }
  }

  lemma EntryIsOk(s: System, choice: S.Choice, id: Id)
    requires Inv(s) && s.unsent && id in s.server.live
    requires choice == S.Full || (choice.Over? && S.StatesAt(s.server.history, choice.base).Some?)
    ensures s.server.next - 1 in s.log
    ensures EntryOk(S.EntryFor(s.server, s.server.next - 1, S.BaseOf(choice), id), s.log[s.server.next - 1],
                    BaseLog(s.log, S.BaseOf(choice)))
  {
    var f, base := s.server.next - 1, S.BaseOf(choice);
    var states := s.server.history[Slot(f, s.H())].states;
    assert RecordOk(s, Slot(f, s.H()));
    if choice.Over? { assert RecordOk(s, Slot(choice.base, s.H())); }
    if id !in states {
      // Nothing was logged under its id for a quarantine before it was born.
      assert s.born[id] == f + 1;
      if choice.Over? { assert IdOk(s, choice.base, id); }
    }
  }

  lemma SentIsOk(s: System, recent: bool, fits: Fits)
    requires Inv(s) && s.unsent && s.server.next > 0
    ensures forall m :: m in S.Send(s.server, recent, fits).1 ==>
      MessageOk(s.log, m) && m.frame == s.server.next - 1
  {
    var choice := S.ChooseBase(s.server, recent);
    if !choice.Nothing? {
      var f, base := s.server.next - 1, S.BaseOf(choice);
      var parts := S.PartsToSend(s.server, choice, fits);
      S.PartsHoldRelevant(s.server, choice, fits);
      assert RecordOk(s, Slot(f, s.H()));
      if choice.Over? { assert RecordOk(s, Slot(choice.base, s.H())); }
      forall m | m in S.Send(s.server, recent, fits).1 ensures MessageOk(s.log, m) && m.frame == f {
        assert m.frame == f && m.base == base && m.entries == parts[m.part];
        forall e: Entry | e in parts[m.part] ensures e.id in s.server.live {
          assert e.id in Ids(parts[m.part]);
        }
        PartIsOk(s, choice, parts[m.part]);
      }
    }
  }

  lemma PartIsOk(s: System, choice: S.Choice, part: seq<Entry>)
    requires Inv(s) && s.unsent && s.server.next > 0 && (choice == S.Full || choice.Over?)
    requires choice.Over? ==> S.StatesAt(s.server.history, choice.base).Some?
    requires forall e :: e in part ==>
      e.id in s.server.live && e == S.EntryFor(s.server, s.server.next - 1, S.BaseOf(choice), e.id)
    ensures s.server.next - 1 in s.log
    ensures forall e :: e in part ==> EntryOk(e, s.log[s.server.next - 1], BaseLog(s.log, S.BaseOf(choice)))
  {
    assert RecordOk(s, Slot(s.server.next - 1, s.H()));
    forall e | e in part ensures EntryOk(e, s.log[s.server.next - 1], BaseLog(s.log, S.BaseOf(choice))) {
      EntryIsOk(s, choice, e.id);
    }
  }

  lemma SentIsOneSnapshot(s: System, recent: bool, fits: Fits)
    requires Inv(s) && s.unsent && s.server.next > 0
    ensures forall m, n :: m in S.Send(s.server, recent, fits).1 && n in S.Send(s.server, recent, fits).1 ==>
      SameSnapshot(m, n)
  {
    var choice := S.ChooseBase(s.server, recent);
    if !choice.Nothing? {
      var parts := S.PartsToSend(s.server, choice, fits);
      S.PartsHoldRelevant(s.server, choice, fits);
      forall m, n | m in S.Send(s.server, recent, fits).1 && n in S.Send(s.server, recent, fits).1
        ensures SameSnapshot(m, n)
      {
        assert m.entries == parts[m.part] && n.entries == parts[n.part];
        if m.part < n.part { assert Ids(parts[m.part]) !! Ids(parts[n.part]); }
        if n.part < m.part { assert Ids(parts[n.part]) !! Ids(parts[m.part]); }
      }
    }
  }

  lemma SendKeeps(s: System, recent: bool, fits: Fits)
    requires Inv(s) && Enabled(s, Send(recent, fits))
    ensures Inv(Apply(s, Send(recent, fits)))
  {
    var s' := Apply(s, Send(recent, fits));
    assert s'.server == s.server.(peer := s'.server.peer);
    SendKeepsServer(s, s');
    SendKeepsNet(s, s', recent, fits);
    assert PendingInv(s');
  }

  /** Only what the server knows about the client changes. */
  lemma SendKeepsServer(s: System, s': System)
    requires IdsInv(s) && AgesInv(s) && HistoryInv(s)
    requires s'.server == s.server.(peer := s'.server.peer) && (s'.unsent ==> s.unsent)
    requires s'.log == s.log && s'.born == s.born && s'.variables == s.variables
    ensures IdsInv(s') && AgesInv(s') && HistoryInv(s')
  {
    forall f, id | f in s'.log ensures IdOk(s', f, id) {
      assert IdOk(s, f, id);
    }
    forall i | 0 <= i < s.H() ensures RecordOk(s', i) {
      assert RecordOk(s, i);
    }
  }

  lemma SendKeepsNet(s: System, s': System, recent: bool, fits: Fits)
    requires Inv(s) && Enabled(s, Send(recent, fits)) && s' == Apply(s, Send(recent, fits))
    ensures NetInv(s')
  {
    SentIsOk(s, recent, fits);
    SentIsOneSnapshot(s, recent, fits);
  }

  // ------------------------------------------------------------------------------------------------------ Client

  /** Decoding an entry over a faithful base writes what was logged, or nothing. */
  lemma ReadEntryIsFaithful(d: Decoding, e: Entry, base: States, bound: map<Id, nat>, logged: States, baseLog: States)
    requires WrittenOk(d.written, d.states, logged) && Faithful(base, baseLog) && EntryOk(e, logged, baseLog)
    requires e.id !in d.written
    requires e.Delta? && e.id in bound ==> bound[e.id] == |logged[e.id]|
    ensures var r := ReadEntry(d, e, base, bound);
      WrittenOk(r.written, r.states, logged) && forall id :: id in r.written ==> id in d.written || id == e.id
  {
    if e.Delta? && e.id in bound {
      var values := DecodeVars(e.vars, bound[e.id], Get(base, e.id));
      if values.Some? {
        assert values.value == logged[e.id];
      }
    }
  }

  lemma {:induction false} ReadIsFaithful(d: Decoding, es: seq<Entry>, base: States, bound: map<Id, nat>,
                                          logged: States, baseLog: States)
    requires WrittenOk(d.written, d.states, logged) && Faithful(base, baseLog) && DistinctIds(es)
    requires forall e :: e in es ==> EntryOk(e, logged, baseLog) && e.id !in d.written &&
                                     (e.Delta? && e.id in bound ==> bound[e.id] == |logged[e.id]|)
    ensures var r := ReadEntries(d, es, base, bound);
      WrittenOk(r.written, r.states, logged) && forall id :: id in r.written ==> id in d.written || id in Ids(es)
    decreases |es|
  {
    if es != [] {
      var before := es[..|es| - 1];
      ReadIsFaithful(d, before, base, bound, logged, baseLog);
      assert es[|es| - 1].id !in Ids(before);
      ReadEntryIsFaithful(ReadEntries(d, before, base, bound), es[|es| - 1], base, bound, logged, baseLog);
    }
  }

  /** The entries of a young snapshot name objects of the same age as the client's bindings. */
  lemma BoundFits(s: System, m: Snapshot, e: Entry)
    requires Inv(s) && Deliverable(s, m) && e in m.entries && e.Delta? && e.id in s.client.bound
    ensures e.id in s.log[m.frame] && s.client.bound[e.id] == |s.log[m.frame][e.id]|
  {
    assert EntryOk(e, s.log[m.frame], BaseLog(s.log, m.base));
    assert IdOk(s, m.frame, e.id);
  }

  ghost predicate ClientOk(s: System) {
    s.H() > 0 && ReceivedInv(s) && PendingInv(s)
  }

  /** What arrives: a message that was sent, or the beginning of one. */
  function Cut(m: Snapshot, kept: nat, truncated: bool): Snapshot
    requires kept <= |m.entries|
  {
    m.(entries := m.entries[..kept], truncated := truncated)
  }

  lemma StartKeeps(s: System, m: Snapshot, n: Snapshot)
    requires ClientOk(s) && m in s.net && MessageOk(s.log, m)
    requires n.frame == m.frame && n.base == m.base && n.part == m.part && n.partCount == m.partCount
    ensures var r := C.StartPart(s.client, n);
      ClientOk(s.(client := r.client)) && r.client.bound == s.client.bound &&
      (r.Ready? ==>
         && r.client.pending.value.frame == m.frame && m.part !in r.client.pending.value.parts
         && Faithful(C.BaseStates(r.client, n), BaseLog(s.log, m.base)))
  {
    var r := C.StartPart(s.client, n);
    var slot := Slot(m.frame, s.H());
    assert |r.client.received| == s.H();
    if r.client.received != s.client.received {
      assert r.client.received == s.client.received[slot := s.client.received[slot].(frame := None)];
      assert PendingInv(s.(client := r.client));
    }
    assert forall i :: 0 <= i < s.H() && i != slot ==> r.client.received[i] == s.client.received[i];
    if r.Ready? && m.base.Some? {
      assert Slot(m.base.value, s.H()) != slot;
    }
  }

  /** Decoding a part of the pending snapshot, or the beginning of one, keeps what is written in the record faithful. */
  lemma DecodeKeeps(s: System, m: Snapshot, kept: nat, truncated: bool)
    requires Inv(s) && Deliverable(s, m) && kept <= |m.entries|
    requires s.client.pending.Some? && s.client.pending.value.frame == m.frame
    requires m.part !in s.client.pending.value.parts
    requires Faithful(C.BaseStates(s.client, Cut(m, kept, truncated)), BaseLog(s.log, m.base))
    ensures var d := C.DecodePart(s.client, Cut(m, kept, truncated)); var p := s.client.pending.value;
      && WrittenOk(d.written, d.states, s.log[m.frame])
      && FromParts(d.written, s.net, p.(parts := p.parts + {m.part}, missing := d.missing))
  {
    var n, p := Cut(m, kept, truncated), s.client.pending.value;
    var d0 := Decoding(s.client.received[Slot(m.frame, s.H())].states, s.client.written, p.missing);
    var base := C.BaseStates(s.client, n);
    forall e | e in n.entries
      ensures EntryOk(e, s.log[m.frame], BaseLog(s.log, m.base)) && e.id !in d0.written
      ensures e.Delta? && e.id in s.client.bound ==> s.client.bound[e.id] == |s.log[m.frame][e.id]|
    {
      assert e in m.entries;
      if e.id in d0.written { NotWrittenYet(s, m, e); }
      if e.Delta? && e.id in s.client.bound { BoundFits(s, m, e); }
    }
    ReadIsFaithful(d0, n.entries, base, s.client.bound, s.log[m.frame], BaseLog(s.log, m.base));
    var d := C.DecodePart(s.client, n);
    var p' := p.(parts := p.parts + {m.part}, missing := d.missing);
    forall id | id in d.written
      ensures exists k :: k in s.net && k.frame == p'.frame && k.part in p'.parts && id in Ids(k.entries)
    {
      if id in d0.written {
        var k :| k in s.net && k.frame == p.frame && k.part in p.parts && id in Ids(k.entries);
        assert k.part in p'.parts;
      } else {
        var e :| e in n.entries && e.id == id;
        assert id in Ids(m.entries);
      }
    }
  }

  /** An object of a part that wasn't taken is in none of the parts that were. */
  lemma NotWrittenYet(s: System, m: Snapshot, e: Entry)
    requires Inv(s) && m in s.net && e in m.entries && s.client.pending.Some?
    requires s.client.pending.value.frame == m.frame && m.part !in s.client.pending.value.parts
    ensures e.id !in s.client.written
  {
    assert e.id in Ids(m.entries);
    var p := s.client.pending.value;
    forall k | k in s.net && k.frame == p.frame && k.part in p.parts ensures e.id !in Ids(k.entries) {
      assert SameSnapshot(m, k);
    }
  }

  /** Taking the decoded objects keeps every record faithful, finished or not. */
  lemma TakeKeeps(s: System, n: Snapshot, d: Decoding)
    requires ClientOk(s) && n.frame in s.log
    requires s.client.pending.Some? && s.client.pending.value.frame == n.frame
    requires WrittenOk(d.written, d.states, s.log[n.frame])
    requires var p := s.client.pending.value;
      FromParts(d.written, s.net, p.(parts := p.parts + {n.part}, missing := d.missing))
    ensures ClientOk(s.(client := C.TakePart(s.client, n, d)))
  {
    var c, slot := C.TakePart(s.client, n, d), Slot(n.frame, s.H());
    if c.pending.None? {
      DropStaleKeys(d.states, d.written);
      assert Faithful(DropStale(d.states, d.written), s.log[n.frame]);
    }
    assert forall i :: 0 <= i < s.H() && i != slot ==> c.received[i] == s.client.received[i];
  }

  lemma HandleKeeps(s: System, m: Snapshot, kept: nat, truncated: bool)
    requires Inv(s) && Deliverable(s, m) && kept <= |m.entries|
    ensures Inv(s.(client := C.Handle(s.client, Cut(m, kept, truncated))))
  {
    var n := Cut(m, kept, truncated);
    var r := C.StartPart(s.client, n);
    var s1 := s.(client := r.client);
    StartKeeps(s, m, n);
    SameServer(s, s1);
    if r.Ready? {
      DecodeKeeps(s1, m, kept, truncated);
      var d := C.DecodePart(r.client, n);
      if truncated {
        CutShort(s1, n, d);
      } else {
        TakeKeeps(s1, n, d);
      }
    }
    SameServer(s, s.(client := C.Handle(s.client, n)));
  }

  /** A truncated part gives up the pending snapshot: its record stays invalid. */
  lemma CutShort(s: System, n: Snapshot, d: Decoding)
    requires ClientOk(s) && s.client.pending.Some? && s.client.pending.value.frame == n.frame
    ensures var slot := Slot(n.frame, s.H());
      var received := s.client.received[slot := s.client.received[slot].(states := d.states)];
      ClientOk(s.(client := s.client.(received := received, pending := None, written := d.written)))
  {}

  /** The part of the invariant that isn't about the client's records. */
  lemma SameServer(s: System, s': System)
    requires Inv(s) && s' == s.(client := s'.client) && ClientOk(s') && s'.client.bound == s.client.bound
    ensures Inv(s')
  {
    forall f, id | f in s'.log ensures IdOk(s', f, id) {
      assert IdOk(s, f, id);
    }
    forall i | 0 <= i < s.H() ensures RecordOk(s', i) {
      assert RecordOk(s, i);
    }
  }

  // ------------------------------------------------------------------------------------------------- Every action

  lemma PruneKeeps(s: System, expired: set<Id>)
    requires Inv(s) && Enabled(s, Prune(expired))
    ensures Inv(Apply(s, Prune(expired)))
  {
    var s' := Apply(s, Prune(expired));
    forall f, id | f in s'.log ensures IdOk(s', f, id) {
      assert IdOk(s, f, id);
    }
    forall i | 0 <= i < s.H() ensures RecordOk(s', i) {
      assert RecordOk(s, i);
    }
    assert ControlInv(s');
  }

  /** What the server knows about the client doesn't matter to what its records hold. */
  lemma PeerChangeKeeps(s: System, a: Action)
    requires Inv(s) && Enabled(s, a) && (a.SetRelevant? || a.Acknowledge?)
    ensures Inv(Apply(s, a))
  {
    var s' := Apply(s, a);
    SendKeepsServer(s, s');
    assert ControlInv(s') && NetInv(s') && PendingInv(s');
  }

  lemma BindingKeeps(s: System, a: Action)
    requires Inv(s) && Enabled(s, a) && (a.DeliverControl? || a.Bind? || a.Unbind?)
    ensures Inv(Apply(s, a))
  {
    var s' := Apply(s, a);
    SendKeepsServer(s, s');
    BindingKeepsControl(s, s', a);
    assert NetInv(s') && ReceivedInv(s') && PendingInv(s');
  }

  lemma BindingKeepsControl(s: System, s': System, a: Action)
    requires ControlInv(s) && s.H() > 0 && |s.client.received| > 0 && Enabled(s, a) && s' == Apply(s, a)
    requires a.DeliverControl? || a.Bind? || a.Unbind?
    ensures ControlInv(s')
  {
    if a.DeliverControl? {
      assert s.control[0] in s.control && forall c :: c in s'.control ==> c in s.control;
    }
  }

  lemma StepKeeps(s: System, a: Action)
    requires Inv(s) && Enabled(s, a)
    ensures Inv(Apply(s, a))
  {
    match a
    case Simulate(simulated) =>
      NextIsSafe(s);
      LeapKeeps(s, s.server.next, simulated);
    case Jump(target, simulated) => LeapKeeps(s, target, simulated);
    case Register(id, variables, relevant, own) => RegisterKeeps(s, id, variables, relevant, own);
    case Unregister(id) => UnregisterKeeps(s, id);
    case Send(recent, fits) => SendKeeps(s, recent, fits);
    case Deliver(m) =>
      assert Cut(m, |m.entries|, false) == m;
      HandleKeeps(s, m, |m.entries|, false);
    case DeliverTruncated(m, kept) => HandleKeeps(s, m, kept, true);
    case Prune(expired) => PruneKeeps(s, expired);
    case SetRelevant(_, _) => PeerChangeKeeps(s, a);
    case Acknowledge(_, _) => PeerChangeKeeps(s, a);
    case DeliverControl => BindingKeeps(s, a);
    case Bind(_) => BindingKeeps(s, a);
    case Unbind(_) => BindingKeeps(s, a);
  }
}
