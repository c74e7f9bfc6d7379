/** What a server sends, told from its messages: when a snapshot is full and over which frame it is otherwise, what each
    entry carries, and that a client that asks for everything gets it. */
module Sending {
  import opened Frames
  import opened Snapshots
  import opened DeltaChain
  import opened DeltaSteps
  import opened DeltaRuns
  import opened Rebuild
  import NetIds
  import S = SyncServer
  import C = SyncClient

  // ------------------------------------------------------------------------------------------------ Kinds of snapshots

  ghost predicate AreFull(sent: seq<Snapshot>, f: nat) {
    sent != [] && forall m :: m in sent ==> m.full && m.base.None? && m.frame == f
  }

  ghost predicate AreOver(sent: seq<Snapshot>, f: nat, base: Option<nat>) {
    sent != [] && forall m :: m in sent ==> !m.full && m.base == base && m.frame == f
  }

  /** Whether the ring still has a frame. */
  predicate Has(s: S.Server, f: Option<nat>)
    requires |s.history| > 0
  {
    f.Some? && s.history[Slot(f.value, |s.history|)].frame == f
  }

  /** Whether the client has to get a full snapshot: it asked for one, and none was sent a moment ago. */
  predicate MustBeFull(p: S.Peer, recent: bool) {
    p.needsFull && (p.lastFull.None? || !recent)
  }

  /** Whether the newest frame the client said it has serves as a base: no full snapshot was sent after it. */
  predicate AckedServes(s: S.Server)
    requires |s.history| > 0
  {
    Has(s, s.peer.acked) && (s.peer.lastFull.None? || s.peer.lastFull.value <= s.peer.acked.value)
  }

  /** Whether the full snapshot sent a moment ago serves. */
  predicate FullServes(s: S.Server, recent: bool)
    requires |s.history| > 0
  {
    recent && Has(s, s.peer.lastFull)
  }

  /** A request for a full snapshot is served. Without one, a snapshot is over the frame the client has, or over the
      last full one if that is newer and recent; when the ring has neither, it's full, unless a full one was sent a
      moment ago: then nothing is sent. */
  lemma WhatIsSent(s: S.Server, recent: bool, fits: Fits)
    requires s.Valid() && s.next > 0
    ensures var sent, f, p := S.Send(s, recent, fits).1, s.next - 1, s.peer;
      && (MustBeFull(p, recent) ==> AreFull(sent, f))
      && (!MustBeFull(p, recent) && AckedServes(s) ==> AreOver(sent, f, p.acked))
      && (!MustBeFull(p, recent) && !AckedServes(s) && FullServes(s, recent) ==> AreOver(sent, f, p.lastFull))
      && (!MustBeFull(p, recent) && !FullServes(s, recent) && Has(s, p.acked) ==> AreOver(sent, f, p.acked))
      && (!MustBeFull(p, recent) && !FullServes(s, recent) && !Has(s, p.acked) ==>
            if p.lastFull.Some? && recent then sent == [] else AreFull(sent, f))
  {
    var choice := S.ChooseBase(s, recent);
    if !choice.Nothing? { S.PartsHoldRelevant(s, choice, fits); }
  }

  /** What the server remembers of what it sent: the last full snapshot, which answers the request; and which objects
      are confirmed, because the client has a frame since they became relevant. */
  lemma WhatIsRemembered(s: S.Server, recent: bool, fits: Fits)
    requires s.Valid() && s.next > 0
    ensures var (s', sent) := S.Send(s, recent, fits); var p, p' := s.peer, s'.peer;
      && s' == s.(peer := p')
      && p' == p.(needsFull := p'.needsFull, lastFull := p'.lastFull, since := p'.since)
      && (AreFull(sent, s.next - 1) ==> !p'.needsFull && p'.lastFull == Some(s.next - 1))
      && (!AreFull(sent, s.next - 1) ==> p'.needsFull == p.needsFull && p'.lastFull == p.lastFull)
      && (sent == [] ==> p' == p)
      && (sent != [] ==> forall id :: id in p'.since <==>
            id in p.since && !(id in s.live && id in p.relevant && p.acked.Some? && p.since[id] <= p.acked.value))
      && (forall id :: id in p'.since ==> p'.since[id] == p.since[id])
  {
    var choice := S.ChooseBase(s, recent);
    if !choice.Nothing? {
      S.PartsHoldRelevant(s, choice, fits);
      var sent := S.Send(s, recent, fits).1;
      assert sent[0] in sent;
    }
  }

  // --------------------------------------------------------------------------------------------------- What is in them

  /** What an object's entry is relative to: its values at the base, unless it became relevant after the base and the
      client didn't confirm it since. */
  function RelativeTo(s: S.Server, base: Option<nat>, id: Id): Option<seq<Value>>
    requires |s.history| > 0
  {
    var p := s.peer;
    var late := base.Some? && id in p.since && p.since[id] > base.value
      && (p.acked.None? || p.acked.value < p.since[id]);
    if base.None? || late then None
    else
      var states := s.history[Slot(base.value, |s.history|)].states;
      if id in states then Some(states[id]) else None
  }

  /** An entry carries exactly what changed. */
  ghost predicate CarriesChanges(e: Entry, now: seq<Value>, base: Option<seq<Value>>) {
    if base == Some(now) then e == Same(e.id)
    else
      && e.Delta? && |e.vars| == |now|
      && forall i :: 0 <= i < |now| ==>
           e.vars[i] == if base.Some? && i < |base.value| && base.value[i] == now[i] then None else Some(now[i])
  }

  /** Each entry of each message carries exactly what changed of its object since the message's base. */
  lemma EntriesCarryChanges(s: S.Server, recent: bool, fits: Fits, m: Snapshot, e: Entry)
    requires s.Valid() && s.next > 0 && m in S.Send(s, recent, fits).1 && e in m.entries
    requires e.id in s.history[Slot(s.next - 1, |s.history|)].states
    ensures CarriesChanges(e, s.history[Slot(s.next - 1, |s.history|)].states[e.id], RelativeTo(s, m.base, e.id))
  {
    var choice, sent := S.ChooseBase(s, recent), S.Send(s, recent, fits).1;
    S.PartsHoldRelevant(s, choice, fits);
    var k :| 0 <= k < |sent| && sent[k] == m;
    assert m.entries == S.PartsToSend(s, choice, fits)[k];
  }

  /** A part ends only where the next entry doesn't fit. */
  ghost predicate IsGreedy(parts: seq<seq<Entry>>, fits: Fits) {
    (|parts| > 1 ==> parts[0] != []) && forall p :: 0 < p < |parts| ==> StartsWhereFull(parts[p - 1], parts[p], fits)
  }

  predicate StartsWhereFull(before: seq<Entry>, part: seq<Entry>, fits: Fits) {
    part != [] && !fits(before + [part[0]])
  }

  lemma {:induction false} SplitIsGreedy(es: seq<Entry>, full: bool, fits: Fits)
    ensures IsGreedy(Split(es, full, fits), fits)
    decreases |es|
  {
    if es != [] {
      SplitIsGreedy(es[..|es| - 1], full, fits);
    }
  }

  ghost predicate EndWhereFull(sent: seq<Snapshot>, fits: Fits) {
    forall p :: 0 < p < |sent| ==> StartsWhereFull(sent[p - 1].entries, sent[p].entries, fits)
  }

  /** No more datagrams are sent than the entries, in order, take. */
  lemma PartsAreFew(s: S.Server, recent: bool, fits: Fits)
    requires s.Valid() && s.next > 0
    ensures EndWhereFull(S.Send(s, recent, fits).1, fits)
  {
    var choice := S.ChooseBase(s, recent);
    SplitIsGreedy(S.EntriesFor(s, s.next - 1, S.BaseOf(choice), s.ids), choice.Full?, fits);
  }

  // ----------------------------------------------------------------------------------------------------- Over the runs

  /** What a server has of its objects. `resting`: the ids in quarantine. */
  datatype Objects = Objects(live: set<Id>, own: set<Id>, relevant: set<Id>, resting: set<Id>)

  /** The objects after an action: relevant are the ones the game wants to be, and the client's own. */
  function ObjectsAfter(o: Objects, a: Action): Objects {
    match a
    case Register(id, _, relevant, own) =>
      Objects(o.live + {id}, if own then o.own + {id} else o.own,
              if relevant || own then o.relevant + {id} else o.relevant, o.resting - {id})
    case Unregister(id) => Objects(o.live - {id}, o.own - {id}, o.relevant - {id}, o.resting + {id})
    case Prune(expired) => o.(resting := o.resting - expired)
    case SetRelevant(id, wanted) =>
      if id !in o.live then o
      else if wanted || id in o.own then o.(relevant := o.relevant + {id}) else o.(relevant := o.relevant - {id})
    case _ => o
  }

  function ObjectsOf(s: S.Server): Objects {
    Objects(s.live.Keys, s.peer.own, s.peer.relevant, s.quarantined.Keys)
  }

  lemma ActionObjects(s: System, a: Action)
    requires Inv(s) && Enabled(s, a)
    ensures ObjectsOf(Apply(s, a).server) == ObjectsAfter(ObjectsOf(s.server), a)
  {
    if a.Send? {
      WhatIsRemembered(s.server, a.recent, a.fits);
    } else if a.Register? || a.Unregister? || a.SetRelevant? || a.Prune? {
      GameObjects(s, a);
    } else {
      assert ObjectsOf(Apply(s, a).server) == ObjectsOf(s.server);
    }
  }

  lemma GameObjects(s: System, a: Action)
    requires Inv(s) && Enabled(s, a) && (a.Register? || a.Unregister? || a.SetRelevant? || a.Prune?)
    ensures ObjectsOf(Apply(s, a).server) == ObjectsAfter(ObjectsOf(s.server), a)
  {}

  /** An id may be given exactly when the allocator of ids may give it; an object that isn't there isn't removed. */
  lemma IdsAreGiven(s: S.Server, id: Id)
    requires |s.history| > 0 && 2 * |s.history| <= U32
    requires forall k :: k in s.quarantined ==> s.quarantined[k] <= s.next < s.quarantined[k] + U32
    ensures S.MayUse(s, id) <==>
      !NetIds.Blocked(s.live.Keys, map k | k in s.quarantined :: Wrap32(s.quarantined[k]), Wrap32(s.next),
                      2 * |s.history|, id)
    ensures id !in s.live ==> S.Unregister(s, id) == s
  {
    if id in s.quarantined { NetIds.FreshIsRecent(s.quarantined[id], s.next, 2 * |s.history|); }
  }

  function ObjectsAfterAll(o: Objects, actions: seq<Action>): Objects
    decreases |actions|
  {
    if actions == [] then o else ObjectsAfterAll(ObjectsAfter(o, actions[0]), actions[1..])
  }

  /** In every run the server's objects are the ones registered and not removed, and the client is sent the ones the
      game said last it should be, and its own. */
  lemma {:induction false} ObjectsAreAsAsked(s: System, actions: seq<Action>, s': System)
    requires Inv(s) && Run(s, actions, s')
    ensures ObjectsOf(s'.server) == ObjectsAfterAll(ObjectsOf(s.server), actions)
    decreases |actions|
  {
    if actions != [] {
      ActionObjects(s, actions[0]);
      StepKeeps(s, actions[0]);
      ObjectsAreAsAsked(Apply(s, actions[0]), actions[1..], s');
    }
  }

  /** The client's acknowledgements. */
  ghost function Acks(actions: seq<Action>): set<nat> {
    set a | a in actions && a.Acknowledge? && a.ack.Some? :: a.ack.value
  }

  ghost predicate IsNewest(acked: Option<nat>, acks: set<nat>) {
    && (acked.None? ==> acks == {})
    && (acked.Some? ==> acked.value in acks && forall f :: f in acks ==> f <= acked.value)
  }

  lemma ActionAcks(s: System, a: Action, acks: set<nat>)
    requires Inv(s) && Enabled(s, a) && IsNewest(s.server.peer.acked, acks)
    ensures IsNewest(Apply(s, a).server.peer.acked, acks + Acks([a]))
  {
    if a.Acknowledge? && a.ack.Some? {
      assert a in [a] && Acks([a]) == {a.ack.value};
    } else {
      assert Acks([a]) == {} && acks + {} == acks;
      SameAcked(s, a);
    }
  }

  lemma SameAcked(s: System, a: Action)
    requires Inv(s) && Enabled(s, a) && (a.Acknowledge? ==> a.ack.None?)
    ensures Apply(s, a).server.peer.acked == s.server.peer.acked
  {
    if a.Send? { WhatIsRemembered(s.server, a.recent, a.fits); }
  }

  /** In every run what the server takes for the client's newest frame is the newest the client said it has, in whatever
      order that arrived. */
  lemma {:induction false} AckedIsNewest(s: System, actions: seq<Action>, s': System, acks: set<nat>)
    requires Inv(s) && Run(s, actions, s') && IsNewest(s.server.peer.acked, acks)
    ensures IsNewest(s'.server.peer.acked, acks + Acks(actions))
    decreases |actions|
  {
    if actions == [] {
      assert acks + Acks(actions) == acks;
    } else {
      ActionAcks(s, actions[0], acks);
      StepKeeps(s, actions[0]);
      AckedIsNewest(Apply(s, actions[0]), actions[1..], s', acks + Acks([actions[0]]));
      assert actions == [actions[0]] + actions[1..];
      assert acks + Acks(actions) == acks + Acks([actions[0]]) + Acks(actions[1..]);
    }
  }

  /** Whether some full snapshot was sent. */
  ghost predicate SentFull(net: set<Snapshot>, since: nat) {
    exists m :: m in net && m.full && m.base.None? && since <= m.frame + 1
  }

  /** In every run a client that asked for a full snapshot is sent one, or its request is still there. */
  lemma RequestIsHeard(s: System, ack: Option<nat>, wantsFull: bool, actions: seq<Action>, s': System)
    requires Inv(s) && Run(Apply(s, Acknowledge(ack, wantsFull)), actions, s')
    ensures wantsFull ==> s'.server.peer.needsFull || SentFull(s'.net, s.server.next)
    ensures !wantsFull ==> Apply(s, Acknowledge(ack, wantsFull)).server.peer.needsFull == s.server.peer.needsFull
  {
    if wantsFull {
      StepKeeps(s, Acknowledge(ack, wantsFull));
      RequestIsKept(Apply(s, Acknowledge(ack, wantsFull)), actions, s', s.server.next);
    }
  }

  /** In every run a request for a full snapshot isn't forgotten before one is sent. */
  lemma {:induction false} RequestIsKept(s: System, actions: seq<Action>, s': System, since: nat)
    requires Inv(s) && Run(s, actions, s') && since <= s.server.next
    requires s.server.peer.needsFull || SentFull(s.net, since)
    ensures s'.server.peer.needsFull || SentFull(s'.net, since)
    decreases |actions|
  {
    if actions != [] {
      StepKeeps(s, actions[0]);
      RequestStep(s, actions[0], since);
      RequestIsKept(Apply(s, actions[0]), actions[1..], s', since);
    }
  }

  lemma RequestStep(s: System, a: Action, since: nat)
    requires Inv(s) && Enabled(s, a) && since <= s.server.next
    requires s.server.peer.needsFull || SentFull(s.net, since)
    ensures var s' := Apply(s, a);
      since <= s'.server.next && (s'.server.peer.needsFull || SentFull(s'.net, since))
  {
    var s' := Apply(s, a);
    assert s.net <= s'.net;
    if SentFull(s.net, since) {
      var m :| m in s.net && m.full && m.base.None? && since <= m.frame + 1;
      assert m in s'.net;
    } else if a.Send? {
      WhatIsRemembered(s.server, a.recent, a.fits);
      var sent := S.Send(s.server, a.recent, a.fits).1;
      if AreFull(sent, s.server.next - 1) {
        assert sent[0] in sent && sent[0] in s'.net;
      }
    }
  }

  // -------------------------------------------------------------------------------------------- What became relevant

  /** When each object became relevant, if it wasn't from the start. */
  ghost function BecameAfter(s: System, became: map<Id, nat>, a: Action): map<Id, nat>
    requires s.H() > 0
  {
    match a
    case SetRelevant(id, wanted) =>
      var relevant := wanted || id in s.server.peer.own;
      if id !in s.server.live || relevant == (id in s.server.peer.relevant) then became
      else if relevant then became[id := s.server.next] else became - {id}
    case Unregister(id) => became - {id}
    case _ => became
  }

  /** Each of them waits until the client has a frame since. */
  ghost predicate Waiting(s: S.Server, became: map<Id, nat>) {
    && became.Keys <= s.peer.relevant && s.peer.relevant <= s.live.Keys
    && (forall id :: id in s.peer.since ==> id in became && became[id] == s.peer.since[id])
    && (forall id :: id in became ==> IsWaiting(s.peer, id) || HasSince(s.peer, became[id]))
  }

  ghost predicate Wait(s: System, became: map<Id, nat>) {
    Waiting(s.server, became)
  }

  predicate IsWaiting(p: S.Peer, id: Id) {
    id in p.since
  }

  predicate HasSince(p: S.Peer, f: nat) {
    p.acked.Some? && p.acked.value >= f
  }

  lemma ActionWaits(s: System, became: map<Id, nat>, a: Action)
    requires Inv(s) && Enabled(s, a) && Wait(s, became)
    ensures Wait(Apply(s, a), BecameAfter(s, became, a))
  {
    if a.SetRelevant? {
      RelevanceWaits(s, became, a.id, a.relevant);
    } else if a.Unregister? {
      RemovalWaits(s, became, a.id);
    } else {
      OthersWait(s, became, a);
    }
  }

  lemma RelevanceWaits(s: System, became: map<Id, nat>, id: Id, wanted: bool)
    requires Inv(s) && Wait(s, became)
    ensures Wait(Apply(s, SetRelevant(id, wanted)), BecameAfter(s, became, SetRelevant(id, wanted)))
  {
    RelevanceStep(s.server, S.SetRelevant(s.server, id, wanted), became,
                  BecameAfter(s, became, SetRelevant(id, wanted)), id, wanted);
  }

  lemma RelevanceStep(s: S.Server, s': S.Server, became: map<Id, nat>, became': map<Id, nat>, id: Id, wanted: bool)
    requires Waiting(s, became) && s' == S.SetRelevant(s, id, wanted)
    requires var relevant := wanted || id in s.peer.own;
      became' == if id !in s.live || relevant == (id in s.peer.relevant) then became
                 else if relevant then became[id := s.next] else became - {id}
    ensures Waiting(s', became')
  {
    forall k | k in became' ensures IsWaiting(s'.peer, k) || HasSince(s'.peer, became'[k]) {
      if k in became { assert IsWaiting(s.peer, k) || HasSince(s.peer, became[k]); }
    }
  }

  lemma RemovalWaits(s: System, became: map<Id, nat>, id: Id)
    requires Inv(s) && Wait(s, became) && id in s.server.live
    ensures Wait(Apply(s, Unregister(id)), became - {id})
  {
    var p' := Apply(s, Unregister(id)).server.peer;
    forall k | k in became - {id} ensures IsWaiting(p', k) || HasSince(p', became[k]) {
      assert IsWaiting(s.server.peer, k) || HasSince(s.server.peer, became[k]);
    }
  }

  lemma OthersWait(s: System, became: map<Id, nat>, a: Action)
    requires Inv(s) && Enabled(s, a) && Wait(s, became) && !a.SetRelevant? && !a.Unregister?
    ensures Wait(Apply(s, a), became)
  {
    var p, p' := s.server.peer, Apply(s, a).server.peer;
    PeerGoesOn(s, a);
    forall id | id in became ensures IsWaiting(p', id) || HasSince(p', became[id]) {
      assert IsWaiting(p, id) || HasSince(p, became[id]);
    }
  }

  /** What the other actions leave of the peer: an object stops waiting only when the client has a frame since. */
  lemma PeerGoesOn(s: System, a: Action)
    requires Inv(s) && Enabled(s, a) && !a.SetRelevant? && !a.Unregister?
    ensures var p, p' := s.server.peer, Apply(s, a).server.peer;
      && p.relevant <= p'.relevant && p'.relevant - p.relevant <= Apply(s, a).server.live.Keys
      && s.server.live.Keys <= Apply(s, a).server.live.Keys
      && (p.acked.Some? ==> p'.acked.Some? && p'.acked.value >= p.acked.value)
      && (forall id :: id in p'.since ==> id in p.since && p'.since[id] == p.since[id])
      && (forall id :: id in p.since && id !in p'.since ==> HasSince(p', p.since[id]))
  {
    if a.Send? { WhatIsRemembered(s.server, a.recent, a.fits); }
  }

  ghost function BecameAfterAll(s: System, became: map<Id, nat>, actions: seq<Action>): map<Id, nat>
    requires s.H() > 0 && |s.client.received| > 0
    decreases |actions|
  {
    if actions == [] then became
    else if !Enabled(s, actions[0]) then became
    else
      var next := Apply(s, actions[0]);
      if next.H() > 0 && |next.client.received| > 0
      then BecameAfterAll(next, BecameAfter(s, became, actions[0]), actions[1..])
      else became
  }

  lemma {:induction false} RunWaits(s: System, became: map<Id, nat>, actions: seq<Action>, s': System)
    requires Inv(s) && Wait(s, became) && Run(s, actions, s')
    ensures Wait(s', BecameAfterAll(s, became, actions))
    decreases |actions|
  {
    if actions != [] {
      ActionWaits(s, became, actions[0]);
      StepKeeps(s, actions[0]);
      RunWaits(Apply(s, actions[0]), BecameAfter(s, became, actions[0]), actions[1..], s');
    }
  }

  /** In every run, what became relevant after the base is written whole until the client has a frame since. */
  lemma NewlyRelevantIsWhole(s: System, became: map<Id, nat>, actions: seq<Action>, s': System, base: nat, id: Id)
    requires Inv(s) && Wait(s, became) && Run(s, actions, s') && id in BecameAfterAll(s, became, actions)
    requires base < BecameAfterAll(s, became, actions)[id]
      && !HasSince(s'.server.peer, BecameAfterAll(s, became, actions)[id])
    ensures s'.H() > 0 && RelativeTo(s'.server, Some(base), id) == None
  {
    RunWaits(s, became, actions, s');
    RunKeeps(s, actions, s');
  }

  // ------------------------------------------------------------------------------------------ What a full one restores

  /** Whether every relevant object the client has bound was there when the frame was simulated. */
  ghost predicate WereThere(s: System)
    requires s.server.next > 0
  {
    forall id :: id in s.server.live && id in s.server.peer.relevant && id in s.client.bound ==>
      id in s.born && s.born[id] <= s.server.next - 1
  }

  /** A client that asks gets everything: when the server has its request, and no full snapshot was sent a moment ago,
      what it sends next gives the client, in whatever order it arrives, the server's state of every relevant object it
      bound, and the client has nothing left to ask for. */
  lemma RequestRestoresEverything(s: System, recent: bool, fits: Fits, order: seq<nat>)
    requires Inv(s) && Enabled(s, Send(recent, fits)) && MustBeFull(s.server.peer, recent) && WereThere(s)
    requires s.client.latest.Some? ==> s.client.latest.value < s.server.next - 1
    requires s.client.pending.Some? ==> s.client.pending.value.frame < s.server.next - 1
    requires var sent := S.Send(s.server, recent, fits).1;
      (forall k :: 0 <= k < |order| ==> order[k] < |sent|) && Taken(order) == C.AllParts(|sent|)
    ensures var c, f := HandleAll(s.client, S.Send(s.server, recent, fits).1, order), s.server.next - 1;
      && !c.needsFull && C.Received(c, Some(f)).Some? && f in s.log
      && forall id :: id in s.server.live && id in s.server.peer.relevant && id in s.client.bound ==>
           id in s.log[f] && Get(C.Received(c, Some(f)).value, id) == Some(s.log[f][id])
  {
    WhatIsSent(s.server, recent, fits);
    ChoiceIsFull(s.server, recent, fits);
    PartsRebuildTheFrame(s, recent, fits, order);
    LoggedNow(s);
    FullRecoversAll(s);
    RebuiltIsLogged(s, C.Received(HandleAll(s.client, S.Send(s.server, recent, fits).1, order),
                                  Some(s.server.next - 1)));
  }

  lemma FullRecoversAll(s: System)
    requires Inv(s) && s.unsent && s.server.next > 0 && WereThere(s)
    ensures BaseOf(s.client, None) == map[] && !SomeUnrecoverable(s, None)
    ensures forall id :: id in s.server.live && id in s.server.peer.relevant && id in s.client.bound ==>
      Recoverable(s.server, None, id, map[])
  {
    LoggedNow(s);
    forall id | id in s.server.live && id in s.server.peer.relevant && id in s.client.bound
      ensures Recoverable(s.server, None, id, map[])
    {
      assert IdOk(s, s.server.next - 1, id);
    }
  }

  lemma RebuiltIsLogged(s: System, states: Option<States>)
    requires Inv(s) && s.unsent && s.server.next > 0 && WereThere(s) && states.Some? && Rebuilt(s, None, states.value)
    ensures s.server.next - 1 in s.log
    ensures forall id :: id in s.server.live && id in s.server.peer.relevant && id in s.client.bound ==>
      id in s.log[s.server.next - 1] && Get(states.value, id) == Some(s.log[s.server.next - 1][id])
  {
    LoggedNow(s);
    FullRecoversAll(s);
    forall id | id in s.server.live && id in s.server.peer.relevant && id in s.client.bound
      ensures id in s.log[s.server.next - 1] && Get(states.value, id) == Some(s.log[s.server.next - 1][id])
    {
      assert IdOk(s, s.server.next - 1, id);
      assert Recoverable(s.server, None, id, map[]);
    }
  }

  lemma ChoiceIsFull(s: S.Server, recent: bool, fits: Fits)
    requires s.Valid() && s.next > 0 && AreFull(S.Send(s, recent, fits).1, s.next - 1)
    ensures S.ChooseBase(s, recent) == S.Full
  {
    var sent := S.Send(s, recent, fits).1;
    assert sent[0] in sent;
  }
}
