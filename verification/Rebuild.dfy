/** What a client has once every part of a snapshot arrived, in any order and with repeats. */
module Rebuild {
  import opened Frames
  import opened Snapshots
  import opened DeltaChain
  import opened DeltaSteps
  import S = SyncServer
  import C = SyncClient

  /** Whether the client can decode an entry: over its own base, with its own bindings. */
  predicate Decodes(e: Entry, base: States, bound: map<Id, nat>) {
    match e
    case Same(id) => id in base
    case Delta(id, vars) => id in bound && DecodeVars(vars, bound[id], Get(base, id)).Some?
  }

  function DecodedIds(es: seq<Entry>, base: States, bound: map<Id, nat>): set<Id> {
    set e | e in es && Decodes(e, base, bound) :: e.id
  }

  ghost predicate LacksSome(es: seq<Entry>, base: States, bound: map<Id, nat>) {
    exists e :: e in es && e.id in bound && !Decodes(e, base, bound)
  }

  lemma {:induction false} ReadWrites(d: Decoding, es: seq<Entry>, base: States, bound: map<Id, nat>)
    ensures var r := ReadEntries(d, es, base, bound);
      ToSet(r.written) == ToSet(d.written) + DecodedIds(es, base, bound) &&
      (r.missing <==> d.missing || LacksSome(es, base, bound))
    decreases |es|
  {
    if es != [] {
      var before, e := es[..|es| - 1], es[|es| - 1];
      ReadWrites(d, before, base, bound);
      assert es == before + [e];
      var r, r' := ReadEntries(d, before, base, bound), ReadEntries(d, es, base, bound);
      assert r' == ReadEntry(r, e, base, bound);
      assert ToSet(r'.written) == ToSet(r.written) + if Decodes(e, base, bound) then {e.id} else {};
      assert DecodedIds(es, base, bound) ==
             DecodedIds(before, base, bound) + if Decodes(e, base, bound) then {e.id} else {};
      assert r'.missing <==> r.missing || (e.id in bound && !Decodes(e, base, bound));
      if e.id in bound && !Decodes(e, base, bound) { assert e in es; }
      assert LacksSome(es, base, bound) <==>
        LacksSome(before, base, bound) || (e.id in bound && !Decodes(e, base, bound));
    }
  }

  /** The client after some parts arrived, in this order. */
  function HandleAll(c: C.Client, sent: seq<Snapshot>, order: seq<nat>): (r: C.Client)
    requires |c.received| > 0 && forall k :: 0 <= k < |order| ==> order[k] < |sent|
    ensures |r.received| == |c.received|
    decreases |order|
  {
    if order == [] then c else C.Handle(HandleAll(c, sent, order[..|order| - 1]), sent[order[|order| - 1]])
  }

  /** The snapshot `sent` is a whole snapshot of one frame that the client can start decoding. */
  ghost predicate Arrives(s: System, sent: seq<Snapshot>, f: nat, base: Option<nat>, full: bool) {
    && Inv(s) && 1 <= |sent| <= MAX_PARTS && f in s.log && s.server.next < f + 2 * s.H()
    && (forall p :: 0 <= p < |sent| ==>
          sent[p] in s.net && sent[p].frame == f && sent[p].base == base && sent[p].full == full &&
          sent[p].part == p && sent[p].partCount == |sent|)
    && (s.client.latest.Some? ==> s.client.latest.value < f)
    && (s.client.pending.Some? ==> s.client.pending.value.frame < f)
    && (base.Some? ==> C.Received(s.client, base).Some? && Slot(base.value, s.H()) != Slot(f, s.H()))
  }

  function BaseOf(c: C.Client, base: Option<nat>): States
    requires |c.received| > 0
  {
    var r := C.Received(c, base);
    if r.Some? then r.value else map[]
  }

  function Taken(order: seq<nat>): set<nat> {
    set i | i in order
  }

  ghost predicate LacksInParts(sent: seq<Snapshot>, parts: set<nat>, base: States, bound: map<Id, nat>) {
    exists p :: p in parts && p < |sent| && LacksSome(sent[p].entries, base, bound)
  }

  function DecodedInParts(sent: seq<Snapshot>, parts: set<nat>, base: States, bound: map<Id, nat>): set<Id> {
    set p, id | p in parts && p < |sent| && id in DecodedIds(sent[p].entries, base, bound) :: id
  }

  /** While parts are missing, what the client wrote depends on which parts arrived, not on their order. */
  ghost predicate Partial(c: C.Client, s: System, sent: seq<Snapshot>, f: nat, base: Option<nat>, parts: set<nat>)
    requires |c.received| > 0 && |s.client.received| > 0
  {
    var b := BaseOf(s.client, base);
    && c.pending.Some? && c.pending.value.frame == f && c.pending.value.partCount == |sent|
    && c.pending.value.parts == parts && c.bound == s.client.bound && c.needsFull == s.client.needsFull
    && BaseOf(c, base) == b && (base.Some? ==> C.Received(c, base).Some?) && c.latest == s.client.latest
    && ToSet(c.written) == DecodedInParts(sent, parts, b, c.bound)
    && (c.pending.value.missing <==> LacksInParts(sent, parts, b, c.bound))
  }

  /** Once all of them arrived: the record holds what was logged for every object the client can decode. */
  ghost predicate Whole(c: C.Client, s: System, sent: seq<Snapshot>, f: nat, base: Option<nat>, full: bool)
    requires |c.received| > 0 && |s.client.received| > 0 && f in s.log
  {
    var b := BaseOf(s.client, base);
    var missing := LacksInParts(sent, C.AllParts(|sent|), b, s.client.bound);
    && c.pending.None? && c.latest == Some(f)
    && C.Received(c, Some(f)).Some?
    && C.Received(c, Some(f)).value.Keys == DecodedInParts(sent, C.AllParts(|sent|), b, s.client.bound)
    && Faithful(C.Received(c, Some(f)).value, s.log[f])
    && (c.needsFull <==> missing || (s.client.needsFull && !full))
  }

  /** One more part. */
  lemma PartStep(s: System, s1: System, sent: seq<Snapshot>, f: nat, base: Option<nat>, full: bool,
                 parts: set<nat>, p: nat)
    requires Arrives(s, sent, f, base, full) && Inv(s1) && s1 == s.(client := s1.client) && p < |sent|
    requires parts == {} ==> s1 == s
    requires parts != {} ==> Partial(s1.client, s, sent, f, base, parts)
    requires parts <= C.AllParts(|sent|) && parts != C.AllParts(|sent|)
    ensures var s2 := s.(client := C.Handle(s1.client, sent[p])); var after := parts + {p};
      Inv(s2) &&
      if after == C.AllParts(|sent|) then Whole(s2.client, s, sent, f, base, full)
      else Partial(s2.client, s, sent, f, base, after)
  {
    HandleWhole(s1, sent[p]);
    if p in parts {
      assert C.StartPart(s1.client, sent[p]) == C.Dropped(s1.client);
      assert parts + {p} == parts;
    } else {
      NewPart(s, s1, sent, f, base, full, parts, p);
    }
  }

  lemma NewPart(s: System, s1: System, sent: seq<Snapshot>, f: nat, base: Option<nat>, full: bool,
                parts: set<nat>, p: nat)
    requires Arrives(s, sent, f, base, full) && Inv(s1) && s1 == s.(client := s1.client) && p < |sent|
    requires parts == {} ==> s1 == s
    requires parts != {} ==> Partial(s1.client, s, sent, f, base, parts)
    requires p !in parts
    ensures var c := C.Handle(s1.client, sent[p]);
      if parts + {p} == C.AllParts(|sent|) then Whole(c, s, sent, f, base, full)
      else Partial(c, s, sent, f, base, parts + {p})
  {
    var c := C.StartPart(s1.client, sent[p]).client;
    assert MessageOk(s.log, sent[p]);
    StartsOver(s, s1, sent, f, base, full, parts, p);
    StartKeeps(s1, sent[p], sent[p]);
    SameServer(s1, s1.(client := c));
    assert s1.(client := c) == s.(client := c);
    PartDecoded(s, c, sent, f, base, full, parts, p);
    PartTaken(s, c, sent, f, base, full, parts, p, C.DecodePart(c, sent[p]));
  }

  lemma HandleWhole(s: System, m: Snapshot)
    requires Inv(s) && Deliverable(s, m)
    ensures Inv(s.(client := C.Handle(s.client, m)))
  {
    assert m.entries[..|m.entries|] == m.entries;
    assert MessageOk(s.log, m) && Cut(m, |m.entries|, false) == m;
    HandleKeeps(s, m, |m.entries|, false);
  }

  lemma PartDecoded(s: System, c: C.Client, sent: seq<Snapshot>, f: nat, base: Option<nat>, full: bool,
                    parts: set<nat>, p: nat)
    requires Arrives(s, sent, f, base, full) && Inv(s.(client := c)) && p < |sent| && p !in parts
    requires Partial(c, s, sent, f, base, parts) && C.BaseStates(c, sent[p]) == BaseOf(s.client, base)
    requires Faithful(BaseOf(s.client, base), BaseLog(s.log, base))
    ensures var d := C.DecodePart(c, sent[p]); var b := BaseOf(s.client, base);
      && WrittenOk(d.written, d.states, s.log[f])
      && ToSet(d.written) == DecodedInParts(sent, parts + {p}, b, c.bound)
      && (d.missing <==> LacksInParts(sent, parts + {p}, b, c.bound))
  {
    var m := sent[p];
    assert m.entries[..|m.entries|] == m.entries;
    assert MessageOk(s.log, m) && Cut(m, |m.entries|, false) == m;
    DecodeKeeps(s.(client := c), m, |m.entries|, false);
    ReadWrites(Decoding(c.received[Slot(f, s.H())].states, c.written, c.pending.value.missing), m.entries,
               BaseOf(s.client, base), c.bound);
    PartsGrow(sent, parts, p, BaseOf(s.client, base), c.bound);
  }

  lemma PartTaken(s: System, c: C.Client, sent: seq<Snapshot>, f: nat, base: Option<nat>, full: bool,
                  parts: set<nat>, p: nat, d: Decoding)
    requires |s.client.received| == |c.received| > 0 && f in s.log && p < |sent| && p !in parts
    requires Partial(c, s, sent, f, base, parts)
    requires sent[p].frame == f && sent[p].full == full && sent[p].part == p && sent[p].partCount == |sent|
    requires base.Some? ==> Slot(base.value, |c.received|) != Slot(f, |c.received|)
    requires WrittenOk(d.written, d.states, s.log[f])
    requires ToSet(d.written) == DecodedInParts(sent, parts + {p}, BaseOf(s.client, base), c.bound)
    requires d.missing <==> LacksInParts(sent, parts + {p}, BaseOf(s.client, base), c.bound)
    ensures |C.TakePart(c, sent[p], d).received| == |c.received|
    ensures var c' := C.TakePart(c, sent[p], d);
      if parts + {p} == C.AllParts(|sent|) then Whole(c', s, sent, f, base, full)
      else Partial(c', s, sent, f, base, parts + {p})
  {
    DropStaleKeys(d.states, d.written);
    var c', slot := C.TakePart(c, sent[p], d), Slot(f, |c.received|);
    if parts + {p} == C.AllParts(|sent|) {
      assert C.Received(c', Some(f)) == Some(DropStale(d.states, d.written));
    } else {
      assert base.Some? ==> C.Received(c', base) == C.Received(c, base);
    }
  }

  /** The client that starts decoding the part: nothing of the snapshot is written yet, or what the other parts
      wrote. */
  lemma StartsOver(s: System, s1: System, sent: seq<Snapshot>, f: nat, base: Option<nat>, full: bool,
                   parts: set<nat>, p: nat)
    requires Arrives(s, sent, f, base, full) && Inv(s1) && s1 == s.(client := s1.client) && p < |sent|
    requires parts == {} ==> s1 == s
    requires parts != {} ==> Partial(s1.client, s, sent, f, base, parts)
    requires p !in parts
    ensures var c := C.StartPart(s1.client, sent[p]).client;
      Partial(c, s, sent, f, base, parts) && C.BaseStates(c, sent[p]) == BaseOf(s.client, base) &&
      C.StartPart(s1.client, sent[p]).Ready? &&
      C.Handle(s1.client, sent[p]) == C.TakePart(c, sent[p], C.DecodePart(c, sent[p]))
  {
    var c := C.StartPart(s1.client, sent[p]).client;
    assert MessageOk(s.log, sent[p]);
    if parts == {} {
      assert c.written == [] && DecodedInParts(sent, {}, BaseOf(s.client, base), c.bound) == {};
    }
  }

  lemma PartsGrow(sent: seq<Snapshot>, parts: set<nat>, p: nat, base: States, bound: map<Id, nat>)
    requires p < |sent|
    ensures DecodedInParts(sent, parts + {p}, base, bound) ==
      DecodedInParts(sent, parts, base, bound) + DecodedIds(sent[p].entries, base, bound)
    ensures LacksInParts(sent, parts + {p}, base, bound) <==>
      LacksInParts(sent, parts, base, bound) || LacksSome(sent[p].entries, base, bound)
  {
    if LacksSome(sent[p].entries, base, bound) { assert p in parts + {p}; }
    if LacksInParts(sent, parts, base, bound) {
      var q :| q in parts && q < |sent| && LacksSome(sent[q].entries, base, bound);
      assert q in parts + {p};
    }
  }

  /** A repeat of a part of a finished snapshot is dropped. */
  lemma RepeatIsDropped(s: System, s1: System, sent: seq<Snapshot>, f: nat, base: Option<nat>, full: bool, p: nat)
    requires Arrives(s, sent, f, base, full) && p < |sent| && Inv(s1) && s1 == s.(client := s1.client)
    requires Whole(s1.client, s, sent, f, base, full)
    ensures C.Handle(s1.client, sent[p]) == s1.client
  {
    assert MessageOk(s.log, sent[p]);
  }

  /** What the client has once the `parts` arrived. */
  ghost predicate Has(c: C.Client, s: System, sent: seq<Snapshot>, f: nat, base: Option<nat>, full: bool,
                      parts: set<nat>)
    requires |c.received| > 0 && |s.client.received| > 0 && f in s.log
  {
    Inv(s.(client := c)) &&
    if parts == {} then c == s.client
    else if parts == C.AllParts(|sent|) then Whole(c, s, sent, f, base, full)
    else Partial(c, s, sent, f, base, parts)
  }

  lemma OneMore(s: System, c: C.Client, sent: seq<Snapshot>, f: nat, base: Option<nat>, full: bool, parts: set<nat>,
                p: nat)
    requires Arrives(s, sent, f, base, full) && p < |sent| && parts <= C.AllParts(|sent|) && |c.received| > 0
    requires Has(c, s, sent, f, base, full, parts)
    ensures |C.Handle(c, sent[p]).received| > 0 && Has(C.Handle(c, sent[p]), s, sent, f, base, full, parts + {p})
  {
    assert p in C.AllParts(|sent|);
    var s1 := s.(client := c);
    if parts == C.AllParts(|sent|) {
      assert parts + {p} == parts;
      RepeatIsDropped(s, s1, sent, f, base, full, p);
    } else {
      PartStep(s, s1, sent, f, base, full, parts, p);
    }
  }

  /** Any order, any repeats: what the client has depends only on which parts arrived. */
  lemma {:induction false} AnyOrder(s: System, sent: seq<Snapshot>, f: nat, base: Option<nat>, full: bool,
                                    order: seq<nat>)
    requires Arrives(s, sent, f, base, full) && forall k :: 0 <= k < |order| ==> order[k] < |sent|
    ensures var c := HandleAll(s.client, sent, order);
      |c.received| > 0 && Taken(order) <= C.AllParts(|sent|) && Has(c, s, sent, f, base, full, Taken(order))
    decreases |order|
  {
    if order != [] {
      var before, p := order[..|order| - 1], order[|order| - 1];
      AnyOrder(s, sent, f, base, full, before);
      assert order == before + [p];
      assert Taken(order) == Taken(before) + {p};
      OneMore(s, HandleAll(s.client, sent, before), sent, f, base, full, Taken(before), p);
    }
  }

  // ------------------------------------------------------------------------------------ What the server just sent

  /** Whether a client whose base holds `clientBase` can recover an object: the entry isn't relative to the base, or the
      base has the object, or every variable travels anyway. */
  ghost predicate Recoverable(server: S.Server, base: Option<nat>, id: Id, clientBase: States)
    requires |server.history| > 0 && server.next > 0
  {
    var values := Get(server.history[Slot(server.next - 1, |server.history|)].states, id);
    var baseValues := S.BaseValues(server, base, id);
    id in clientBase ||
    (values.Some? && values != baseValues &&
     forall i :: 0 <= i < |values.value| ==> Travels(values.value, baseValues, i))
  }

  ghost predicate SomeUnrecoverable(s: System, base: Option<nat>)
    requires s.H() > 0 && |s.client.received| > 0 && s.server.next > 0
  {
    exists id :: id in s.server.live && id in s.server.peer.relevant && id in s.client.bound &&
                 !Recoverable(s.server, base, id, BaseOf(s.client, base))
  }

  lemma DecodesIsRecoverable(s: System, choice: S.Choice, id: Id)
    requires Inv(s) && s.unsent && id in s.server.live && id in s.client.bound
    requires choice == S.Full || (choice.Over? && S.StatesAt(s.server.history, choice.base).Some?)
    ensures var base := S.BaseOf(choice); var b := BaseOf(s.client, base);
      Decodes(S.EntryFor(s.server, s.server.next - 1, base, id), b, s.client.bound) <==>
      Recoverable(s.server, base, id, b)
  {
    var f, base := s.server.next - 1, S.BaseOf(choice);
    var b := BaseOf(s.client, base);
    assert RecordOk(s, Slot(f, s.H()));
    if choice.Over? { assert RecordOk(s, Slot(choice.base, s.H())); }
    var values, baseValues := Get(s.server.history[Slot(f, s.H())].states, id), S.BaseValues(s.server, base, id);
    if values.Some? && values != baseValues {
      assert IdOk(s, f, id);
      assert s.client.bound[id] == |values.value|;
      if baseValues.None? || id !in b || Some(b[id]) == baseValues {
        if id in b && baseValues.None? {
          assert forall v :: 0 <= v < |values.value| ==> EncodeVars(values.value, baseValues)[v].Some?;
        } else {
          DecodeEncode(values.value, baseValues, Get(b, id));
        }
      }
    }
  }

  /** The client can start decoding what the server just sent. */
  ghost predicate CanStart(s: System, choice: S.Choice) {
    && s.H() > 0 && |s.client.received| > 0
    && (s.client.latest.Some? ==> s.client.latest.value < s.server.next - 1)
    && (s.client.pending.Some? ==> s.client.pending.value.frame < s.server.next - 1)
    && (choice.Over? ==> C.Received(s.client, Some(choice.base)).Some?)
  }

  lemma SentArrives(s: System, recent: bool, fits: Fits)
    requires Inv(s) && Enabled(s, Send(recent, fits)) && CanStart(s, S.ChooseBase(s.server, recent))
    requires var choice := S.ChooseBase(s.server, recent);
      !choice.Nothing? && (choice.Over? ==> choice.base < s.server.next - 1)
    ensures var choice := S.ChooseBase(s.server, recent);
      Arrives(Apply(s, Send(recent, fits)), S.Send(s.server, recent, fits).1, s.server.next - 1,
              S.BaseOf(choice), choice.Full?)
  {
    var choice, f := S.ChooseBase(s.server, recent), s.server.next - 1;
    SendKeeps(s, recent, fits);
    S.PartsHoldRelevant(s.server, choice, fits);
    assert RecordOk(s, Slot(f, s.H()));
    if choice.Over? {
      assert RecordOk(s, Slot(choice.base, s.H()));
    }
  }

  /** Split delta completeness: when every part of what the server sends for a frame reaches a client that has the base,
      in any order and with repeats, the client holds for every relevant object it can recover exactly the server's
      state at that frame. It finds nothing missing (it asks for no full snapshot) exactly when it can recover every
      relevant object it has bound. */
  lemma PartsRebuildTheFrame(s: System, recent: bool, fits: Fits, order: seq<nat>)
    requires Inv(s) && Enabled(s, Send(recent, fits)) && CanStart(s, S.ChooseBase(s.server, recent))
    requires var choice := S.ChooseBase(s.server, recent);
      !choice.Nothing? && (choice.Over? ==> choice.base < s.server.next - 1)
    requires var sent := S.Send(s.server, recent, fits).1;
      (forall k :: 0 <= k < |order| ==> order[k] < |sent|) && Taken(order) == C.AllParts(|sent|)
    ensures var choice := S.ChooseBase(s.server, recent); var f := s.server.next - 1;
      var base := S.BaseOf(choice); var c := HandleAll(s.client, S.Send(s.server, recent, fits).1, order);
      && C.Received(c, Some(f)).Some?
      && Rebuilt(s, base, C.Received(c, Some(f)).value)
      && (c.needsFull <==> ((s.client.needsFull && !choice.Full?) || SomeUnrecoverable(s, base)))
  {
    var choice, f, sent := S.ChooseBase(s.server, recent), s.server.next - 1, S.Send(s.server, recent, fits).1;
    var s' := Apply(s, Send(recent, fits));
    SentArrives(s, recent, fits);
    assert order != [] by { assert 0 in C.AllParts(|sent|); }
    AnyOrder(s', sent, f, S.BaseOf(choice), choice.Full?, order);
    forall id | id in s.server.live && id in s.server.peer.relevant && id in s.client.bound &&
                Recoverable(s.server, S.BaseOf(choice), id, BaseOf(s.client, S.BaseOf(choice)))
      ensures id in DecodedInParts(sent, C.AllParts(|sent|), BaseOf(s.client, S.BaseOf(choice)), s.client.bound)
    {
      RecoverableIsDecoded(s, recent, fits, id);
    }
    MissingIsUnrecoverable(s, recent, fits);
    var c := HandleAll(s.client, sent, order);
    assert Whole(c, s, sent, f, S.BaseOf(choice), choice.Full?);
    LoggedNow(s);
    WholeIsRebuilt(s, c, sent, S.BaseOf(choice), choice.Full?,
                   DecodedInParts(sent, C.AllParts(|sent|), BaseOf(s.client, S.BaseOf(choice)), s.client.bound));
  }

  lemma LoggedNow(s: System)
    requires Inv(s) && s.unsent && s.server.next > 0
    ensures s.server.next - 1 in s.log && RingHasLog(s)
  {
    assert RecordOk(s, Slot(s.server.next - 1, s.H()));
    forall id | id in s.server.live && id in s.log[s.server.next - 1]
      ensures Get(s.server.history[Slot(s.server.next - 1, s.H())].states, id) == Some(s.log[s.server.next - 1][id])
    {
      assert IdOk(s, s.server.next - 1, id);
    }
  }

  /** The states of a client's record, against the server's record of the frame just simulated. */
  ghost predicate Rebuilt(s: System, base: Option<nat>, states: States)
    requires s.H() > 0 && |s.client.received| > 0 && s.server.next > 0
  {
    forall id :: id in s.server.live && id in s.server.peer.relevant && id in s.client.bound &&
                 Recoverable(s.server, base, id, BaseOf(s.client, base)) ==>
      id in states && Get(s.server.history[Slot(s.server.next - 1, s.H())].states, id) == Some(states[id])
  }

  lemma WholeIsRebuilt(s: System, c: C.Client, sent: seq<Snapshot>, base: Option<nat>, full: bool, decoded: set<Id>)
    requires s.H() > 0 && |s.client.received| > 0 && s.server.next > 0 && |c.received| > 0
    requires s.server.next - 1 in s.log && RingHasLog(s) && Whole(c, s, sent, s.server.next - 1, base, full)
    requires decoded == DecodedInParts(sent, C.AllParts(|sent|), BaseOf(s.client, base), s.client.bound)
    requires forall id :: (id in s.server.live && id in s.server.peer.relevant && id in s.client.bound &&
        Recoverable(s.server, base, id, BaseOf(s.client, base))) ==> id in decoded
    ensures Rebuilt(s, base, C.Received(c, Some(s.server.next - 1)).value)
  {
    assert C.Received(c, Some(s.server.next - 1)).value.Keys == decoded;
  }

  /** Every live object logged at the frame just simulated is in the server's record of it. */
  ghost predicate RingHasLog(s: System)
    requires s.H() > 0 && s.server.next > 0 && s.server.next - 1 in s.log
  {
    forall id :: id in s.server.live && id in s.log[s.server.next - 1] ==>
      Get(s.server.history[Slot(s.server.next - 1, s.H())].states, id) == Some(s.log[s.server.next - 1][id])
  }

  lemma RecoverableIsDecoded(s: System, recent: bool, fits: Fits, id: Id)
    requires Inv(s) && s.unsent && s.server.next > 0 && !S.ChooseBase(s.server, recent).Nothing?
    requires id in s.server.live && id in s.server.peer.relevant && id in s.client.bound
    ensures var base := S.BaseOf(S.ChooseBase(s.server, recent)); var sent := S.Send(s.server, recent, fits).1;
      var b := BaseOf(s.client, base);
      if Recoverable(s.server, base, id, b) then id in DecodedInParts(sent, C.AllParts(|sent|), b, s.client.bound)
      else LacksInParts(sent, C.AllParts(|sent|), b, s.client.bound)
  {
    EntryOfId(s, recent, fits, id);
    DecodesIsRecoverable(s, S.ChooseBase(s.server, recent), id);
  }

  lemma MissingIsUnrecoverable(s: System, recent: bool, fits: Fits)
    requires Inv(s) && s.unsent && s.server.next > 0 && !S.ChooseBase(s.server, recent).Nothing?
    ensures var base := S.BaseOf(S.ChooseBase(s.server, recent)); var sent := S.Send(s.server, recent, fits).1;
      LacksInParts(sent, C.AllParts(|sent|), BaseOf(s.client, base), s.client.bound) <==> SomeUnrecoverable(s, base)
  {
    var base, sent := S.BaseOf(S.ChooseBase(s.server, recent)), S.Send(s.server, recent, fits).1;
    if SomeUnrecoverable(s, base) {
      var id :| id in s.server.live && id in s.server.peer.relevant && id in s.client.bound &&
                !Recoverable(s.server, base, id, BaseOf(s.client, base));
      RecoverableIsDecoded(s, recent, fits, id);
    }
    if LacksInParts(sent, C.AllParts(|sent|), BaseOf(s.client, base), s.client.bound) {
      LackingId(s, recent, fits);
    }
  }

  /** Whether every entry is what the server writes of its object. */
  ghost predicate WrittenFor(server: S.Server, base: Option<nat>, es: seq<Entry>)
    requires |server.history| > 0 && server.next > 0
  {
    forall e: Entry :: e in es ==> e == S.EntryFor(server, server.next - 1, base, e.id)
  }

  ghost predicate AllWrittenFor(server: S.Server, base: Option<nat>, sent: seq<Snapshot>)
    requires |server.history| > 0 && server.next > 0
  {
    forall p :: 0 <= p < |sent| ==> WrittenFor(server, base, sent[p].entries)
  }

  /** The messages hold the entry of every relevant object, and no other entry. */
  lemma SentHolds(s: System, recent: bool, fits: Fits)
    requires Inv(s) && s.unsent && s.server.next > 0 && !S.ChooseBase(s.server, recent).Nothing?
    ensures var sent := S.Send(s.server, recent, fits).1;
      && AllWrittenFor(s.server, S.BaseOf(S.ChooseBase(s.server, recent)), sent)
      && (forall p, id: Id :: 0 <= p < |sent| && id in Ids(sent[p].entries) ==>
          id in s.server.live && id in s.server.peer.relevant)
      && (forall id :: id in s.server.live && id in s.server.peer.relevant ==>
          exists p :: 0 <= p < |sent| && id in Ids(sent[p].entries))
  {
    var choice, sent := S.ChooseBase(s.server, recent), S.Send(s.server, recent, fits).1;
    var parts := S.PartsToSend(s.server, choice, fits);
    S.PartsHoldRelevant(s.server, choice, fits);
    assert |sent| == |parts| && forall p :: 0 <= p < |sent| ==> sent[p].entries == parts[p];
    forall id | id in s.server.live && id in s.server.peer.relevant
      ensures exists p :: 0 <= p < |sent| && id in Ids(sent[p].entries)
    {
      assert id in s.server.live.Keys * s.server.peer.relevant;
      var p :| 0 <= p < |parts| && id in Ids(parts[p]);
      assert id in Ids(sent[p].entries);
    }
  }

  /** The entry of an object is in one part, and no other part has another entry of it. */
  lemma EntryOfId(s: System, recent: bool, fits: Fits, id: Id)
    requires Inv(s) && s.unsent && id in s.server.live && id in s.server.peer.relevant
    requires !S.ChooseBase(s.server, recent).Nothing? && s.server.next > 0
    ensures var choice := S.ChooseBase(s.server, recent); var base := S.BaseOf(choice);
      var sent := S.Send(s.server, recent, fits).1; var b := BaseOf(s.client, base);
      var d := Decodes(S.EntryFor(s.server, s.server.next - 1, base, id), b, s.client.bound);
      && (d <==> id in DecodedInParts(sent, C.AllParts(|sent|), b, s.client.bound))
      && (!d && id in s.client.bound ==> LacksInParts(sent, C.AllParts(|sent|), b, s.client.bound))
  {
    var base := S.BaseOf(S.ChooseBase(s.server, recent));
    SentHolds(s, recent, fits);
    EntryInParts(s.server, base, S.Send(s.server, recent, fits).1, id, BaseOf(s.client, base), s.client.bound);
  }

  lemma {:induction false} EntryInParts(server: S.Server, base: Option<nat>, sent: seq<Snapshot>, id: Id, b: States,
                                        bound: map<Id, nat>)
    requires |server.history| > 0 && server.next > 0 && AllWrittenFor(server, base, sent)
    requires exists p :: 0 <= p < |sent| && id in Ids(sent[p].entries)
    ensures var d := Decodes(S.EntryFor(server, server.next - 1, base, id), b, bound);
      && (d <==> id in DecodedInParts(sent, C.AllParts(|sent|), b, bound))
      && (!d && id in bound ==> LacksInParts(sent, C.AllParts(|sent|), b, bound))
  {
    var e := S.EntryFor(server, server.next - 1, base, id);
    var p :| 0 <= p < |sent| && id in Ids(sent[p].entries);
    assert WrittenFor(server, base, sent[p].entries);
    assert e in sent[p].entries && p in C.AllParts(|sent|);
    if Decodes(e, b, bound) {
      assert id in DecodedIds(sent[p].entries, b, bound);
    }
    if id in DecodedInParts(sent, C.AllParts(|sent|), b, bound) {
      var q :| q in C.AllParts(|sent|) && q < |sent| && id in DecodedIds(sent[q].entries, b, bound);
      assert WrittenFor(server, base, sent[q].entries);
    }
  }

  /** Something missing is a relevant object the client can't recover. */
  lemma LackingId(s: System, recent: bool, fits: Fits)
    requires Inv(s) && s.unsent && s.server.next > 0 && !S.ChooseBase(s.server, recent).Nothing?
    requires var sent := S.Send(s.server, recent, fits).1;
      LacksInParts(sent, C.AllParts(|sent|), BaseOf(s.client, S.BaseOf(S.ChooseBase(s.server, recent))), s.client.bound)
    ensures SomeUnrecoverable(s, S.BaseOf(S.ChooseBase(s.server, recent)))
  {
    var choice, sent := S.ChooseBase(s.server, recent), S.Send(s.server, recent, fits).1;
    var base := S.BaseOf(choice);
    SentHolds(s, recent, fits);
    var id := LackingEntry(s.server, base, sent, BaseOf(s.client, base), s.client.bound);
    DecodesIsRecoverable(s, choice, id);
  }

  lemma {:induction false} LackingEntry(server: S.Server, base: Option<nat>, sent: seq<Snapshot>, b: States,
                                        bound: map<Id, nat>) returns (id: Id)
    requires |server.history| > 0 && server.next > 0 && AllWrittenFor(server, base, sent)
    requires LacksInParts(sent, C.AllParts(|sent|), b, bound)
    ensures id in bound && !Decodes(S.EntryFor(server, server.next - 1, base, id), b, bound)
    ensures exists p :: 0 <= p < |sent| && id in Ids(sent[p].entries)
  {
    var p :| p in C.AllParts(|sent|) && p < |sent| && LacksSome(sent[p].entries, b, bound);
    var e: Entry :| e in sent[p].entries && e.id in bound && !Decodes(e, b, bound);
    assert WrittenFor(server, base, sent[p].entries);
    id := e.id;
    assert id in Ids(sent[p].entries);
  }
}
