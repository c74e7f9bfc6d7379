/** The registry and the nodes of a mesh over whole runs, for one object and one registry process.

    Every node, the registry's own included, has a reliable queue to the registry and one from it, in order (a node's
    messages to itself go through its loopback queue). Nodes may leave for good at any time, and new ones join once the
    registry settled. The registry may be settling
    (it just took over), waiting (it lost its quorum) or acting. What a run records besides is history: `log`, the
    versions this registry announced; `at`, which of them each node is at. */
module MeshProtocol {
  import opened Frames
  import opened Snapshots
  import opened Ownership

  datatype Phase = Settling | Waiting | Acting

  /** A version a registry announced: the owner it names, and its number, counted without wrapping around. */
  datatype Version = Version(owner: Node, count: nat)

  /** Where a node is in the log: at the `k`th version; before the one after the `k`th, which is the first it will take;
      or it took that the object is gone. */
  datatype Place = Gone | Before(k: nat) | Taken(k: nat)

  /** A state sample of an object on its way: its sender, the version it was sent under, and where the sender was. */
  datatype Sample = Sample(from: Node, version: nat, at: Place)

  /** `count`: the number of the record's version (0: there is no record yet). `gone`: the object was dropped. */
  datatype Mesh = Mesh(local: Node, ready: set<Node>, departed: set<Node>, phase: Phase, orphanCheck: bool,
                       hold: Option<Hold>, count: nat, deferred: seq<(Node, ToRegistry)>, gone: bool,
                       nodes: map<Node, Replica>, up: map<Node, seq<ToRegistry>>, down: map<Node, seq<FromRegistry>>,
                       samples: set<Sample>, log: seq<Version>, at: map<Node, Place>)

  /** `quorum`: whether the registry still has its quorum when the node left. */
  datatype Step =
    | GameAsks(node: Node, ask: Ask)
    | RegistryTakes(node: Node, corrected: bool)
    | RegistryTakesDeferred(corrected: bool)
    | NodeTakes(node: Node, approved: bool)
    | SendsState(node: Node)
    | ClaimsObject(node: Node, owner: Node)
    | TimesOut
    | TakesReport(node: Node, owner: Node, count: nat, last: bool)
    | FinishesTakeOver
    | LosesQuorum
    | Resumes
    | Leaves(node: Node, quorum: bool)
    | Joins(node: Node, known: Option<Ownership.Entry>)

  /** Most messages kept for a registry that can't answer yet: MESH_MAX_DEFERRED. */
  const MAX_DEFERRED: nat := 4096

  function Send(down: map<Node, seq<FromRegistry>>, o: Out): (r: map<Node, seq<FromRegistry>>)
    ensures r.Keys == down.Keys
  {
    map n | n in down :: if o.ToAll? || o.node == n then down[n] + [o.m] else down[n]
  }

  function SendAll(down: map<Node, seq<FromRegistry>>, outs: seq<Out>): (r: map<Node, seq<FromRegistry>>)
    ensures r.Keys == down.Keys
    decreases |outs|
  {
    if outs == [] then down else Send(SendAll(down, outs[..|outs| - 1]), outs[|outs| - 1])
  }

  /** Where a node is after one more message. An announcement may repeat the version before it. */
  function After(log: seq<Version>, at: Place, m: FromRegistry): Place {
    if at.Gone? || m.Unregister? then Gone
    else if m.Announce? && (at.Before? || at.k == 0 || at.k > |log| || m.version != Serial(log[at.k - 1].count))
    then Taken(at.k + 1)
    else at
  }

  /** Where a node is that took everything. */
  function EndOf(log: seq<Version>): Place {
    if log == [] then Before(0) else Taken(|log|)
  }

  /** Where a node that joins starts: it gets the last version only. */
  function StartOf(s: Mesh): Place {
    if s.gone then Gone else if s.log == [] then Before(0) else Before(|s.log| - 1)
  }

  /** The versions written: each announcement to everyone is of the version after the last one, number `count`. */
  function Written(count: nat, outs: seq<Out>): seq<Version>
    decreases |outs|
  {
    if outs == [] then []
    else
      var before, o := Written(count, outs[..|outs| - 1]), outs[|outs| - 1];
      before + if o.ToAll? && o.m.Announce? then [Version(o.m.owner, count + |before| + 1)] else []
  }

  function TakeAnswer(s: Mesh, a: Answer): Mesh {
    var written := Written(s.count, a.outs);
    s.(hold := a.hold, count := s.count + |written|, down := SendAll(s.down, a.outs), log := s.log + written,
       gone := s.gone || (s.hold.Some? && a.hold.None?))
  }

  ghost predicate ValidHold(s: Mesh) {
    s.hold.Some? ==> s.hold.value.Valid()
  }

  ghost predicate Enabled(s: Mesh, step: Step)
    requires Keyed(s)
  {
    ValidHold(s) &&
    match step
    case GameAsks(n, _) => n in s.ready
    case RegistryTakes(n, _) => n in s.ready && s.up[n] != [] && NoSecondLife(s, s.up[n][0])
    case RegistryTakesDeferred(_) => s.phase == Acting && s.deferred != [] && NoSecondLife(s, s.deferred[0].1)
    case NodeTakes(n, _) => n in s.ready && s.down[n] != []
    case SendsState(n) => n in s.ready
    case ClaimsObject(n, _) => n in s.ready
    case TimesOut => true
    case TakesReport(n, _, count, _) => n in s.ready && s.phase != Waiting && !s.gone && InWindow(s, count)
    case FinishesTakeOver => s.phase == Settling
    case LosesQuorum => s.phase == Acting
    case Resumes => s.phase == Waiting
    case Joins(n, known) =>
      && n > 0 && n !in s.ready && n !in s.departed && s.phase != Settling
      && (known.Some? ==> !s.gone && !known.value.announced && !known.value.frozen && !known.value.releaseOwn)
    case Leaves(n, quorum) =>
      n in s.ready && n != s.local && (s.phase == Waiting ==> !quorum) && (s.phase == Acting ==> quorum)
  }

  /** The versions the nodes report are within one serial window of the registry's, its next one included. */
  predicate InWindow(s: Mesh, count: nat) {
    && 0 < count && (s.hold.Some? ==> -MAX_SERIAL_JUMP < count - s.count < MAX_SERIAL_JUMP)
    && (s.log != [] ==> count + 1 - s.log[|s.log| - 1].count < MAX_SERIAL_JUMP)
  }

  /** A path claimed after its object was dropped gets another id: this object isn't registered again. */
  predicate NoSecondLife(s: Mesh, m: ToRegistry) {
    m.Claim? && s.hold.None? ==> !s.gone
  }

  ghost predicate Keyed(s: Mesh) {
    s.nodes.Keys == s.ready && s.up.Keys == s.ready && s.down.Keys == s.ready && s.at.Keys == s.ready
  }

  /** A message for a registry that can't act: a release is refused when it isn't settling, or too many wait. */
  function Postpone(s: Mesh, n: Node, m: ToRegistry): Mesh {
    var refused := s.(down := SendAll(s.down, if m.Release? then Deny(s.ready, n) else []));
    if (m.Release? || m.Refuse?) && s.phase != Settling then refused
    else if |s.deferred| >= MAX_DEFERRED then refused
    else s.(deferred := s.deferred + [(n, m)])
  }

  ghost function Next(s: Mesh, step: Step): Mesh
    requires Keyed(s) && Enabled(s, step)
  {
    match step
    case GameAsks(n, ask) =>
      var (r, sent) := TakeAsk(s.nodes[n], n, ask);
      s.(nodes := s.nodes[n := r], up := s.up[n := s.up[n] + sent])
    case ClaimsObject(n, owner) => s.(up := s.up[n := s.up[n] + [Claim(owner)]])
    case RegistryTakes(n, corrected) =>
      var m, s' := s.up[n][0], s.(up := s.up[n := s.up[n][1..]]);
      if s.phase == Acting then TakeAnswer(s', Handle(s.hold, n, m, s.ready, s.departed, corrected))
      else Postpone(s', n, m)
    case RegistryTakesDeferred(corrected) =>
      var (n, m), s' := s.deferred[0], s.(deferred := s.deferred[1..]);
      if n in s.ready then TakeAnswer(s', Handle(s.hold, n, m, s.ready, s.departed, corrected)) else s'
    case NodeTakes(n, approved) => NodeTake(s, n, approved)
    case SendsState(n) =>
      var r := s.nodes[n];
      if r.entry.Some? && r.entry.value.owner == n && !r.entry.value.frozen
      then s.(samples := s.samples + {Sample(n, r.entry.value.version, s.at[n])}) else s
    case TimesOut => TakeAnswer(s, TimeOut(s.hold, s.ready))
    case TakesReport(n, owner, count, last) =>
      if s.phase == Settling then Merge(s, owner, count)
      else AnswerReport(if IsNews(s, count) then AnnounceAgain(Merge(s, owner, count)) else s, n, last)
    case FinishesTakeOver =>
      var s' := s.(phase := Waiting, orphanCheck := false);
      if s.hold.None? then s' else AnnounceAgain(s')
    case LosesQuorum => s.(phase := Waiting)
    case Resumes =>
      var s' := s.(phase := Acting, orphanCheck := false);
      if s.orphanCheck then OrphanGone(s') else s'
    case Joins(n, known) =>
      var told := if s.hold.Some? then [Announce(s.hold.value.owner, s.hold.value.version)] else [];
      s.(ready := s.ready + {n}, nodes := s.nodes[n := Replica(known, false)], up := s.up[n := []],
         down := s.down[n := told], at := s.at[n := StartOf(s)])
    case Leaves(n, quorum) =>
      var s' := s.(ready := s.ready - {n}, departed := s.departed + {n}, nodes := s.nodes - {n}, up := s.up - {n},
                   down := s.down - {n}, at := s.at - {n});
      if quorum then TakeAnswer(s', PeerLeft(s.hold, n, s'.ready)) else s'.(orphanCheck := true)
  }

  ghost function NodeTake(s: Mesh, n: Node, approved: bool): Mesh
    requires Keyed(s) && n in s.ready && s.down[n] != []
  {
    var taken := Take(s.nodes[n], n, s.down[n][0], approved);
    s.(nodes := s.nodes[n := taken.0], up := s.up[n := s.up[n] + taken.1], down := s.down[n := s.down[n][1..]],
       at := s.at[n := After(s.log, s.at[n], s.down[n][0])])
  }

  predicate IsNews(s: Mesh, count: nat) {
    s.hold.None? || SerialNewer(Serial(count), s.hold.value.version)
  }

  /** The record after a node's view was merged. */
  function Merge(s: Mesh, owner: Node, count: nat): (s': Mesh)
    requires 0 < count && (s.hold.Some? ==> s.hold.value.Valid())
    ensures s'.hold.Some? && s'.hold.value.Valid()
  {
    if IsNews(s, count) then TakeAnswer(s, MergeReport(s.hold, owner, Serial(count), s.ready)).(count := count) else s
  }

  /** Announces the record again with a new version, without its owner if it left. */
  function AnnounceAgain(s: Mesh): Mesh
    requires s.hold.Some? && s.hold.value.Valid()
  {
    TakeAnswer(s, ChangeOwner(s.hold.value, if s.hold.value.owner in s.ready then s.hold.value.owner else 0, s.ready))
  }

  /** A late report's sender gets the registry's view back, after its last message. */
  function AnswerReport(s: Mesh, n: Node, last: bool): Mesh {
    if last && s.hold.Some?
    then TakeAnswer(s, Answer(s.hold, [To(n, Announce(s.hold.value.owner, s.hold.value.version))])) else s
  }

  /** registry_resume: the nodes that left while the registry couldn't act, and take part in something. */
  function OrphanGone(s: Mesh): Mesh
    requires s.hold.Some? ==> s.hold.value.Valid()
  {
    if s.hold.None? then s
    else
      var h := s.hold.value;
      LoseNode(LoseNode(LoseNode(s, h.owner), if h.pendingTo.Some? then h.pendingTo.value else 0), h.requester)
  }

  function LoseNode(s: Mesh, n: Node): (s': Mesh)
    requires s.hold.Some? ==> s.hold.value.Valid()
    ensures s'.hold.Some? ==> s'.hold.value.Valid()
  {
    if n == 0 || n in s.ready then s else TakeAnswer(s, PeerLeft(s.hold, n, s.ready))
  }

  // --------------------------------------------------------------------------------------------------- Invariant

  /** A queue from the registry: its announcements go through the versions one by one, from the one the node is at to
      the last one, each with its owner. */
  ghost predicate Chain(log: seq<Version>, at: Place, q: seq<FromRegistry>, end: Place)
    decreases |q|
  {
    if q == [] then at == end
    else
      var m, next := q[0], After(log, at, q[0]);
      && (m.Unregister? ==> !at.Gone?)
      && (m.Announce? ==> next.Taken? && Names(log, next.k, m.owner, m.version))
      && Chain(log, next, q[1..], end)
  }

  /** The `k`th version of this registry, on the wire, and its owner. */
  ghost predicate Names(log: seq<Version>, k: nat, owner: Node, version: nat) {
    1 <= k <= |log| && version == Serial(log[k - 1].count) && owner == log[k - 1].owner
  }

  function End(s: Mesh): Place {
    if s.gone then Gone else EndOf(s.log)
  }

  /** Each version is after the one before it, within one serial window. */
  ghost predicate Spaced(log: seq<Version>) {
    (log != [] ==> 0 < log[0].count) && forall i :: 0 < i < |log| ==> Gap(log, i)
  }

  predicate Gap(log: seq<Version>, i: nat)
    requires 0 < i < |log|
  {
    0 < log[i].count - log[i - 1].count < MAX_SERIAL_JUMP
  }

  lemma SpacedSnoc(log: seq<Version>, v: Version)
    requires Spaced(log) && v.count > 0 && (log != [] ==> 0 < v.count - log[|log| - 1].count < MAX_SERIAL_JUMP)
    ensures Spaced(log + [v])
  {
    var log' := log + [v];
    forall i | 0 < i < |log'| ensures Gap(log', i) {
      if i < |log| { assert Gap(log, i); }
    }
  }

  /** Whether `count` + 1 may be the number of the next version. */
  predicate Follows(log: seq<Version>, count: nat) {
    log != [] ==> 0 <= count - log[|log| - 1].count < MAX_SERIAL_JUMP - 1
  }

  ghost predicate HoldInv(s: Mesh) {
    && Keyed(s) && s.local in s.ready && 0 !in s.ready && s.ready !! s.departed
    && Spaced(s.log) && Follows(s.log, s.count)
    && (s.gone ==> s.hold.None?)
    && (s.hold.None? && !s.gone ==> s.log == [] && s.count == 0)
    && (s.hold.Some? ==> s.hold.value.Valid() && s.count > 0 && s.hold.value.version == Serial(s.count))
    && (s.hold.Some? && s.phase != Settling ==> InStep(s))
  }

  /** Whether the record is the last version announced. */
  ghost predicate InStep(s: Mesh)
    requires s.hold.Some?
  {
    s.log != [] && s.log[|s.log| - 1] == Version(s.hold.value.owner, s.count)
  }

  ghost predicate EntryInv(s: Mesh, n: Node)
    requires Keyed(s) && n in s.ready
  {
    var r, at := s.nodes[n], s.at[n];
    && (at.Gone? ==> r.entry.None?)
    && (at.Taken? ==>
          r.entry.Some? && r.entry.value.announced && Names(s.log, at.k, r.entry.value.owner, r.entry.value.version))
    && (at.Before? && r.entry.Some? ==> !r.entry.value.announced)
    && (r.entry.Some? && r.entry.value.frozen ==> r.entry.value.owner == n)
    && (r.entry.Some? && r.entry.value.releaseOwn ==> r.entry.value.frozen)
  }

  /** What ends a release at the node that froze the object. */
  predicate Ends(m: FromRegistry, n: Node) {
    m.Denied? || m.Unregister? || (m.Announce? && m.owner != n)
  }

  /** The node's release is on its way to the registry or waits there, or what ends it is on its way back. */
  ghost predicate Awaited(s: Mesh, n: Node)
    requires Keyed(s) && n in s.ready
  {
    || (exists m :: m in s.up[n] && m.Release?)
    || (exists m :: (n, m) in s.deferred && m.Release?)
    || (exists m :: m in s.down[n] && Ends(m, n))
  }

  ghost predicate NodeInv(s: Mesh, n: Node)
    requires Keyed(s) && n in s.ready
  {
    && Chain(s.log, s.at[n], s.down[n], End(s))
    && EntryInv(s, n)
    && (s.nodes[n].entry.Some? && s.nodes[n].entry.value.frozen ==> Awaited(s, n))
  }

  ghost predicate Inv(s: Mesh) {
    HoldInv(s) && forall n :: n in s.ready ==> NodeInv(s, n)
  }

  /** A registry that took over, or starts: nothing was announced nor sent, and nobody is releasing anything. */
  ghost predicate Initial(s: Mesh) {
    && Keyed(s) && s.local in s.ready && 0 !in s.ready && s.ready !! s.departed && !s.gone && s.log == []
    && s.deferred == []
    && (s.hold.None? ==> s.count == 0)
    && (s.hold.Some? ==>
          s.phase == Settling && s.count > 0 && s.hold.value == Hold(s.hold.value.owner, Serial(s.count), 0, None, 0))
    && s.samples == {}
    && forall n :: n in s.ready ==>
         s.up[n] == [] && s.down[n] == [] && s.at[n] == Before(0) &&
         (s.nodes[n].entry.Some? ==> !s.nodes[n].entry.value.announced && !s.nodes[n].entry.value.frozen &&
                                     !s.nodes[n].entry.value.releaseOwn)
  }

  lemma InitialHolds(s: Mesh)
    requires Initial(s)
    ensures Inv(s)
  {}

  // ------------------------------------------------------------------------------------------------------ Queues

  lemma {:induction false} ChainGrows(log: seq<Version>, more: seq<Version>, at: Place, q: seq<FromRegistry>,
                                      end: Place)
    requires Chain(log, at, q, end)
    ensures Chain(log + more, at, q, end)
    decreases |q|
  {
    if q != [] {
      ChainGrows(log, more, After(log, at, q[0]), q[1..], end);
    }
  }

  lemma {:induction false} ChainAppends(log: seq<Version>, at: Place, q: seq<FromRegistry>, end: Place,
                                        m: FromRegistry)
    requires Chain(log, at, q, end)
    requires m.Unregister? ==> !end.Gone?
    requires m.Announce? ==> After(log, end, m).Taken? && Names(log, After(log, end, m).k, m.owner, m.version)
    ensures Chain(log, at, q + [m], After(log, end, m))
    decreases |q|
  {
    if q == [] {
      assert q + [m] == [m];
    } else {
      ChainAppends(log, After(log, at, q[0]), q[1..], end, m);
      assert (q + [m])[1..] == q[1..] + [m];
    }
  }

  /** Whether a message may be sent when the record's version is number `count`: the next version to everyone, the last
      one to one node. */
  ghost predicate OutOk(count: nat, log: seq<Version>, gone: bool, o: Out) {
    match o.m
    case Announce(owner, version) =>
      !gone && if o.ToAll? then version == Serial(count + 1) && Follows(log, count)
               else Names(log, |log|, owner, version)
    case Unregister => o.ToAll? && !gone
    case _ => true
  }

  predicate Drops(outs: seq<Out>) {
    exists o :: o in outs && o.ToAll? && o.m.Unregister?
  }

  ghost predicate OutsOk(count: nat, log: seq<Version>, gone: bool, outs: seq<Out>)
    decreases |outs|
  {
    outs == [] ||
    (var before := outs[..|outs| - 1];
     var written := Written(count, before);
     OutsOk(count, log, gone, before) &&
     OutOk(count + |written|, log + written, gone || Drops(before), outs[|outs| - 1]))
  }

  ghost predicate Chains(log: seq<Version>, gone: bool, at: map<Node, Place>, down: map<Node, seq<FromRegistry>>)
  {
    forall n :: n in down ==> n in at && Chain(log, at[n], down[n], if gone then Gone else EndOf(log))
  }

  lemma WrittenOne(count: nat, o: Out)
    ensures Written(count, [o]) == if o.ToAll? && o.m.Announce? then [Version(o.m.owner, count + 1)] else []
    ensures Drops([o]) <==> o.ToAll? && o.m.Unregister?
    ensures Written(count, []) == [] && !Drops([])
  {
    assert [o][..0] == [];
    if o.ToAll? && o.m.Unregister? { assert o in [o]; }
  }

  lemma SendKeepsChains(count: nat, log: seq<Version>, gone: bool, at: map<Node, Place>,
                        down: map<Node, seq<FromRegistry>>, o: Out, log': seq<Version>, gone': bool)
    requires Chains(log, gone, at, down) && OutOk(count, log, gone, o)
    requires log' == log + Written(count, [o]) && gone' == (gone || Drops([o]))
    ensures Chains(log', gone', at, Send(down, o))
  {
    var end := if gone then Gone else EndOf(log);
    WrittenOne(count, o);
    if log != [] && o.ToAll? && o.m.Announce? { SerialNewerIsOrder(count + 1, log[|log| - 1].count); }
    assert After(log', end, o.m) == if gone' then Gone else EndOf(log');
    forall n | n in down
      ensures Chain(log', at[n], Send(down, o)[n], if gone' then Gone else EndOf(log'))
    {
      ChainGrows(log, Written(count, [o]), at[n], down[n], end);
      if o.ToAll? || o.node == n {
        ChainAppends(log', at[n], down[n], end, o.m);
      }
    }
  }

  lemma LastWritten(count: nat, log: seq<Version>, outs: seq<Out>)
    requires outs != []
    ensures var before, o := outs[..|outs| - 1], outs[|outs| - 1]; var written := Written(count, before);
      && log + Written(count, outs) == log + written + Written(count + |written|, [o])
      && (Drops(outs) <==> Drops(before) || Drops([o]))
  {
    var before, o := outs[..|outs| - 1], outs[|outs| - 1];
    WrittenOne(count + |Written(count, before)|, o);
    assert outs == before + [o];
  }

  lemma {:induction false} SendAllKeepsChains(count: nat, log: seq<Version>, gone: bool, at: map<Node, Place>,
                                              down: map<Node, seq<FromRegistry>>, outs: seq<Out>)
    requires Chains(log, gone, at, down) && OutsOk(count, log, gone, outs)
    ensures Chains(log + Written(count, outs), gone || Drops(outs), at, SendAll(down, outs))
    decreases |outs|
  {
    if outs == [] {
      assert log + [] == log;
    } else {
      var before, o := outs[..|outs| - 1], outs[|outs| - 1];
      var written := Written(count, before);
      SendAllKeepsChains(count, log, gone, at, down, before);
      LastWritten(count, log, outs);
      SendKeepsChains(count + |written|, log + written, gone || Drops(before), at, SendAll(down, before), o,
                      log + Written(count, outs), gone || Drops(outs));
    }
  }

  /** What is sent stays in the queues, and nothing in them is lost. */
  lemma {:induction false} SendAllDelivers(down: map<Node, seq<FromRegistry>>, outs: seq<Out>, n: Node)
    requires n in down
    ensures forall m :: m in down[n] ==> m in SendAll(down, outs)[n]
    ensures forall o :: o in outs && (o.ToAll? || o.node == n) ==> o.m in SendAll(down, outs)[n]
    decreases |outs|
  {
    if outs != [] {
      SendAllDelivers(down, outs[..|outs| - 1], n);
      assert outs == outs[..|outs| - 1] + [outs[|outs| - 1]];
    }
  }

  // ------------------------------------------------------------------------------------------- Registry's answers

  /** An answer the registry may give: what it sends follows what it sent, and its record stays in step. */
  ghost predicate AnswerOk(s: Mesh, a: Answer)
    requires HoldInv(s)
  {
    && OutsOk(s.count, s.log, s.gone, a.outs)
    && (Drops(a.outs) <==> s.hold.Some? && a.hold.None?)
    && HoldInv(TakeAnswer(s, a))
  }

  lemma OneOut(count: nat, log: seq<Version>, gone: bool, o: Out)
    requires OutOk(count, log, gone, o)
    ensures OutsOk(count, log, gone, [o]) && (Drops([o]) <==> o.ToAll? && o.m.Unregister?)
    ensures Written(count, [o]) == if o.ToAll? && o.m.Announce? then [Version(o.m.owner, count + 1)] else []
  {
    WrittenOne(count, o);
    var before := [o][..0];
    assert before == [] && log + [] == log;
    assert OutsOk(count, log, gone, before);
  }

  lemma DenyOk(count: nat, log: seq<Version>, gone: bool, ready: set<Node>, n: Node)
    ensures var outs := Deny(ready, n); OutsOk(count, log, gone, outs) && !Drops(outs) && Written(count, outs) == []
  {
    OneOut(count, log, gone, To(n, Denied));
  }

  /** One message more, after messages that announce nothing. */
  lemma OutsSnoc(count: nat, log: seq<Version>, gone: bool, outs: seq<Out>, o: Out)
    requires OutsOk(count, log, gone, outs) && Written(count, outs) == [] && !Drops(outs) && OutOk(count, log, gone, o)
    ensures OutsOk(count, log, gone, outs + [o])
    ensures Written(count, outs + [o]) == if o.ToAll? && o.m.Announce? then [Version(o.m.owner, count + 1)] else []
    ensures Drops(outs + [o]) <==> o.ToAll? && o.m.Unregister?
  {
    assert (outs + [o])[..|outs|] == outs && log + [] == log;
    if o.ToAll? && o.m.Unregister? { assert o in outs + [o]; }
  }

  lemma ChangeOwnerOk(s: Mesh, owner: Node, ready: set<Node>)
    requires HoldInv(s) && s.hold.Some?
    ensures AnswerOk(s, ChangeOwner(s.hold.value, owner, ready))
    ensures Written(s.count, ChangeOwner(s.hold.value, owner, ready).outs) == [Version(owner, s.count + 1)]
  {
    ChangeOwnerWrites(s, owner, ready);
    SpacedSnoc(s.log, Version(owner, s.count + 1));
  }

  lemma ChangeOwnerWrites(s: Mesh, owner: Node, ready: set<Node>)
    requires HoldInv(s) && s.hold.Some?
    ensures var outs := ChangeOwner(s.hold.value, owner, ready).outs;
      OutsOk(s.count, s.log, s.gone, outs) && Written(s.count, outs) == [Version(owner, s.count + 1)] && !Drops(outs)
  {
    var h := s.hold.value;
    if h.pendingTo.Some? && h.pendingTo != Some(owner) {
      DenyOk(s.count, s.log, s.gone, ready, h.requester);
      AnnounceAfter(s.count, s.log, s.gone, Deny(ready, h.requester), owner);
    } else {
      NothingOk(s.count, s.log, s.gone);
      AnnounceAfter(s.count, s.log, s.gone, [], owner);
    }
  }

  /** The next version, announced after messages that announce nothing. */
  lemma AnnounceAfter(count: nat, log: seq<Version>, gone: bool, told: seq<Out>, owner: Node)
    requires OutsOk(count, log, gone, told) && Written(count, told) == [] && !Drops(told)
    requires !gone && Follows(log, count)
    ensures var outs := told + [ToAll(Announce(owner, Serial(count + 1)))];
      OutsOk(count, log, gone, outs) && Written(count, outs) == [Version(owner, count + 1)] && !Drops(outs)
  {
    OutsSnoc(count, log, gone, told, ToAll(Announce(owner, Serial(count + 1))));
  }

  lemma NothingOk(count: nat, log: seq<Version>, gone: bool)
    ensures OutsOk(count, log, gone, []) && !Drops([]) && Written(count, []) == []
  {}

  /** Answers that leave the owner and the version as they were. */
  lemma SameVersionOk(s: Mesh, a: Answer)
    requires HoldInv(s) && OutsOk(s.count, s.log, s.gone, a.outs) && Written(s.count, a.outs) == [] && !Drops(a.outs)
    requires a.hold == s.hold || (s.hold.Some? && a.hold.Some? && a.hold.value ==
               s.hold.value.(pendingTo := a.hold.value.pendingTo, requester := a.hold.value.requester))
    ensures AnswerOk(s, a)
  {
    assert s.log + [] == s.log;
  }

  lemma DeniedOk(s: Mesh, hold: Option<Hold>, ready: set<Node>, n: Node)
    requires HoldInv(s)
    requires hold == s.hold || (s.hold.Some? && hold.Some? && hold.value ==
               s.hold.value.(pendingTo := hold.value.pendingTo, requester := hold.value.requester))
    ensures AnswerOk(s, Answer(hold, Deny(ready, n))) && AnswerOk(s, Answer(hold, []))
  {
    DenyOk(s.count, s.log, s.gone, ready, n);
    SameVersionOk(s, Answer(hold, Deny(ready, n)));
    WrittenOne(s.count, To(n, Denied));
    SameVersionOk(s, Answer(hold, []));
  }

  /** Sending something to one node. */
  lemma AskedOk(s: Mesh, hold: Hold, o: Out)
    requires HoldInv(s) && s.hold.Some?
    requires hold == s.hold.value.(pendingTo := hold.pendingTo, requester := hold.requester)
    requires o.To? && OutOk(s.count, s.log, s.gone, o)
    ensures AnswerOk(s, Answer(Some(hold), [o]))
  {
    OneOut(s.count, s.log, s.gone, o);
    SameVersionOk(s, Answer(Some(hold), [o]));
  }

  /** Whatever a node asks of a registry that can act. */
  lemma HandleOk(s: Mesh, n: Node, m: ToRegistry, ready: set<Node>, departed: set<Node>, corrected: bool)
    requires HoldInv(s) && s.phase == Acting && NoSecondLife(s, m)
    ensures AnswerOk(s, Handle(s.hold, n, m, ready, departed, corrected))
  {
    match m
    case Claim(owner) => ClaimOk(s, n, owner, ready, departed, corrected);
    case Drop => DropOk(s, n);
    case Request => RequestOk(s, n, ready);
    case Assign(target) => AssignOk(s, n, target, ready);
    case Release(version, to) =>
      DeniedOk(s, s.hold, ready, n);
      if s.hold.Some? { ChangeOwnerOk(s, if to > 0 && to !in ready then 0 else to, ready); }
    case Refuse(version) => RefuseOk(s, n, version, ready);
  }

  lemma RequestOk(s: Mesh, n: Node, ready: set<Node>)
    requires HoldInv(s) && s.phase == Acting
    ensures AnswerOk(s, HandleRequest(s.hold, n, ready))
  {
    DeniedOk(s, s.hold, ready, n);
    if s.hold.Some? {
      var h := s.hold.value;
      ChangeOwnerOk(s, n, ready);
      AskedOk(s, h.(pendingTo := Some(n), requester := n), To(h.owner, Transfer(h.version, n, false)));
    }
  }

  lemma AssignOk(s: Mesh, n: Node, target: Node, ready: set<Node>)
    requires HoldInv(s) && s.phase == Acting
    ensures AnswerOk(s, HandleAssign(s.hold, n, target, ready))
  {
    if s.hold.None? || s.hold.value.pendingTo.Some? || (target > 0 && target !in ready)
       || s.hold.value.owner == target
    {
      DeniedOk(s, s.hold, ready, n);
    } else if s.hold.value.owner !in ready {
      ChangeOwnerOk(s, target, ready);
    } else {
      var h := s.hold.value;
      AskedOk(s, h.(pendingTo := Some(target), requester := n), To(h.owner, Transfer(h.version, target, true)));
    }
  }

  lemma RefuseOk(s: Mesh, n: Node, version: nat, ready: set<Node>)
    requires HoldInv(s) && s.phase == Acting
    ensures AnswerOk(s, HandleRefusal(s.hold, n, version, ready))
  {
    DeniedOk(s, s.hold, ready, n);
    if s.hold.Some? {
      DeniedOk(s, Some(s.hold.value.(pendingTo := None, requester := 0)), ready, s.hold.value.requester);
    }
  }

  lemma ClaimOk(s: Mesh, n: Node, owner: Node, ready: set<Node>, departed: set<Node>, corrected: bool)
    requires HoldInv(s) && s.phase == Acting && NoSecondLife(s, Claim(owner))
    ensures AnswerOk(s, HandleClaim(s.hold, n, owner, ready, departed, corrected))
  {
    var a := HandleClaim(s.hold, n, owner, ready, departed, corrected);
    if s.hold.Some? {
      ChangeOwnerOk(s, s.hold.value.owner, ready);
      AskedOk(s, s.hold.value, To(n, Announce(s.hold.value.owner, s.hold.value.version)));
    } else {
      assert Serial(0) == 0 && Serial(1) == 1;
      OneOut(s.count, s.log, s.gone, a.outs[0]);
      SpacedSnoc(s.log, Version(a.hold.value.owner, 1));
    }
  }

  lemma DropOk(s: Mesh, n: Node)
    requires HoldInv(s) && s.phase == Acting
    ensures AnswerOk(s, HandleDrop(s.hold, n))
  {
    DeniedOk(s, s.hold, {}, n);
    if s.hold.Some? {
      OneOut(s.count, s.log, s.gone, ToAll(Unregister));
      assert s.log + [] == s.log;
    }
  }

  lemma PeerLeftOk(s: Mesh, n: Node, ready: set<Node>)
    requires HoldInv(s)
    ensures AnswerOk(s, PeerLeft(s.hold, n, ready))
  {
    if s.hold.None? {
      DeniedOk(s, s.hold, ready, n);
    } else if s.hold.value.owner == n {
      ChangeOwnerOk(s, 0, ready);
    } else {
      DeniedOk(s, s.hold, ready, n);
      DeniedOk(s, Some(s.hold.value.(pendingTo := None, requester := 0)), ready, s.hold.value.requester);
    }
  }
}
