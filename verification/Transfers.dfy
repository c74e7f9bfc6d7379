/** Who gets an object: what changes its owner in a run, and only that; and requests, assignments and releases from the
    node that asks to every replica. */
module Transfers {
  import opened Frames
  import opened Snapshots
  import opened Ownership
  import opened MeshProtocol
  import opened MeshRuns

  // ------------------------------------------------------------------------------------------------- The new owner

  function OwnerOf(hold: Option<Hold>): Option<Node> {
    if hold.Some? then Some(hold.value.owner) else None
  }

  /** A release is the owner's when it names the record's version, or the one before it was announced again. */
  predicate IsOwners(h: Hold, from: Node, version: nat) {
    h.owner == from && (version == h.version || (version == h.previous && h.previous != 0))
  }

  /** The owner after a message from a node to a registry that acts: who asks for an object whose owner isn't ready gets
      it, and who its owner releases it to. */
  function OwnerAfter(h: Hold, from: Node, m: ToRegistry, ready: set<Node>): Option<Node> {
    match m
    case Request => Some(if h.pendingTo.None? && h.owner !in ready then from else h.owner)
    case Assign(target) =>
      Some(if h.pendingTo.None? && h.owner !in ready && (target == 0 || target in ready) then target else h.owner)
    case Release(version, to) =>
      Some(if !IsOwners(h, from, version) then h.owner else if to == 0 || to in ready || to == h.owner then to else 0)
    case Drop => if h.owner == from then None else Some(h.owner)
    case Claim(_) => Some(h.owner)
    case Refuse(_) => Some(h.owner)
  }

  /** Whether the answer is announced: a record that changes its owner, or corrects its schema, has a new version. */
  predicate Renews(h: Hold, from: Node, m: ToRegistry, ready: set<Node>, corrected: bool) {
    OwnerAfter(h, from, m, ready) != Some(h.owner) || (m.Claim? && corrected)
  }

  /** A record with a new version: it knows the one before it while the owner stays, and has no transfer in progress. */
  function Renewed(h: Hold, owner: Node): Hold
    requires h.Valid()
  {
    Hold(owner, NextSerial(h.version), if owner == h.owner then h.version else 0, None, 0)
  }

  /** What a registry that acts answers about an object it has: the owner is the one above; a new version goes to
      everyone and ends the transfer in progress; else the record keeps its version. */
  lemma OwnerIsAnswered(h: Hold, from: Node, m: ToRegistry, ready: set<Node>, departed: set<Node>, corrected: bool)
    requires h.Valid() && m != Drop && from > 0
    requires m.Request? ==> from != h.owner
    ensures var a := Handle(Some(h), from, m, ready, departed, corrected);
      && a.hold.Some? && OwnerOf(a.hold) == OwnerAfter(h, from, m, ready)
      && if Renews(h, from, m, ready, corrected)
         then a.hold == Some(Renewed(h, a.hold.value.owner))
              && ToAll(Announce(a.hold.value.owner, a.hold.value.version)) in a.outs
         else a.hold.value.version == h.version && forall o :: o in a.outs ==> o.To?
  {}

  /** Who a request or an assignment wants to be the owner. */
  function Wanted(from: Node, m: ToRegistry): Node
    requires m.Request? || m.Assign?
  {
    if m.Request? then from else m.target
  }

  predicate CanWant(from: Node, m: ToRegistry, ready: set<Node>) {
    m.Request? || (m.Assign? && (m.target == 0 || m.target in ready))
  }

  /** An owner that is ready is asked, once: it may refuse a request, not an assignment. */
  lemma OwnerIsAsked(h: Hold, from: Node, m: ToRegistry, ready: set<Node>, departed: set<Node>)
    requires h.Valid() && h.pendingTo.None? && CanWant(from, m, ready) && h.owner in ready && Wanted(from, m) != h.owner
    ensures Handle(Some(h), from, m, ready, departed, false) ==
      Answer(Some(Hold(h.owner, h.version, h.previous, Some(Wanted(from, m)), from)),
             [To(h.owner, Transfer(h.version, Wanted(from, m), m.Assign?))])
  {}

  /** What isn't wanted is denied to who asks: another transfer, a target or an object that isn't there, a release that
      isn't the owner's, or is to itself. Nothing changes. */
  lemma WhatIsDenied(hold: Option<Hold>, from: Node, m: ToRegistry, ready: set<Node>, departed: set<Node>)
    requires (hold.Some? ==> hold.value.Valid()) && from > 0 && from in ready
    ensures var a := Handle(hold, from, m, ready, departed, false);
      var denied := match m
                    case Request => hold.None? || hold.value.pendingTo.Some?
                    case Assign(_) => hold.None? || hold.value.pendingTo.Some? || !CanWant(from, m, ready)
                    case Release(version, to) => hold.None? || !IsOwners(hold.value, from, version) || to == from
                    case _ => false;
      && (denied ==> a == Answer(hold, [To(from, Denied)]))
      && (!denied && !m.Claim? && !m.Refuse? ==>
          To(from, Denied) !in a.outs || (hold.Some? && hold.value.requester == from))
  {}

  /** Asking for what is so already is no transfer: the owner asks for its object, or it's assigned to its owner. */
  lemma SameOwnerIsIgnored(h: Hold, from: Node, m: ToRegistry, ready: set<Node>, departed: set<Node>)
    requires h.Valid() && h.pendingTo.None? && CanWant(from, m, ready) && Wanted(from, m) == h.owner
    ensures Handle(Some(h), from, m, ready, departed, false) == Answer(Some(h), [])
  {}

  /** A refusal by the owner ends the transfer it was asked for, and nothing else. */
  lemma RefusalEnds(h: Hold, from: Node, version: nat, ready: set<Node>, departed: set<Node>)
    requires h.Valid() && h.requester > 0 && h.requester in ready
    ensures Handle(Some(h), from, Refuse(version), ready, departed, false) ==
      if IsOwners(h, from, version)
      then Answer(Some(Hold(h.owner, h.version, h.previous, None, 0)), [To(h.requester, Denied)])
      else Answer(Some(h), [])
  {}

  /** The first owner of a path is the one named, or who claims it; nobody if that one left. A path that has an object
      gives its claimant what the record says. */
  lemma FirstOwner(from: Node, owner: Node, ready: set<Node>, departed: set<Node>)
    requires from > 0
    ensures var a := Handle(None, from, Claim(owner), ready, departed, false);
      var first := if owner > 0 then owner else from;
      && a.hold == Some(Hold(if first in departed - ready then 0 else first, 1, 0, None, 0))
      && a.outs == [ToAll(Announce(a.hold.value.owner, 1))]
    ensures forall h: Hold :: h.Valid() ==>
      Handle(Some(h), from, Claim(owner), ready, departed, false) ==
        Answer(Some(h), [To(from, Announce(h.owner, h.version))])
  {}

  /** A transfer in progress that doesn't end as it was asked for is denied to who asked. */
  lemma LoserIsDenied(h: Hold, from: Node, m: ToRegistry, ready: set<Node>, departed: set<Node>, corrected: bool)
    requires h.Valid() && m != Drop && h.pendingTo.Some? && h.requester > 0 && h.requester in ready
    ensures var a := Handle(Some(h), from, m, ready, departed, corrected);
      a.hold.Some? && (a.hold.value.pendingTo.None? && Some(a.hold.value.owner) != h.pendingTo ==>
        To(h.requester, Denied) in a.outs)
  {}

  /** A release that crosses a correction of the schema still counts: the owner stayed, and the record knows the version
      it had before. */
  lemma ReleaseCrossesCorrection(h: Hold, from: Node, claimed: Node, to: Node, ready: set<Node>, departed: set<Node>)
    requires h.Valid() && from > 0 && h.owner > 0 && h.owner in ready && to != h.owner && (to == 0 || to in ready)
    ensures var corrected := Handle(Some(h), from, Claim(claimed), ready, departed, true).hold;
      && corrected.Some?
      && OwnerOf(Handle(corrected, h.owner, Release(h.version, to), ready, departed, false).hold) == Some(to)
  {
    OwnerIsAnswered(h, from, Claim(claimed), ready, departed, true);
    OwnerIsAnswered(Renewed(h, h.owner), h.owner, Release(h.version, to), ready, departed, false);
  }

  /** A node that left: its object is nobody's; a transfer to it, or that it asked for, ends, and who else asked is
      told. */
  lemma LeaverLetsGo(h: Hold, node: Node, ready: set<Node>)
    requires h.Valid() && (h.pendingTo.Some? ==> h.requester > 0)
    ensures var a := PeerLeft(Some(h), node, ready);
      var told := if h.pendingTo.Some? && h.requester in ready then [To(h.requester, Denied)] else [];
      a == if h.owner == node
           then Answer(Some(Renewed(h, 0)), (if h.pendingTo == Some(0) then [] else told)
                                            + [ToAll(Announce(0, NextSerial(h.version)))])
           else if h.pendingTo == Some(node) || (h.pendingTo.Some? && h.requester == node)
           then Answer(Some(Hold(h.owner, h.version, h.previous, None, 0)), if h.requester == node then [] else told)
           else Answer(Some(h), [])
    ensures PeerLeft(None, node, ready) == Answer(None, [])
  {}

  /** A transfer the owner doesn't answer in time ends, and who asked is told. */
  lemma LateTransferEnds(h: Hold, ready: set<Node>)
    requires h.Valid() && h.requester > 0
    ensures TimeOut(Some(h), ready) ==
      if h.pendingTo.None? then Answer(Some(h), [])
      else Answer(Some(Hold(h.owner, h.version, h.previous, None, 0)),
                  if h.requester in ready then [To(h.requester, Denied)] else [])
    ensures TimeOut(None, ready) == Answer(None, [])
  {}

  /** A report replaces an older record, and ends its transfer; no other one does anything. Versions are the `a`th and
      the `b`th, in one window. */
  lemma NewerReportCounts(h: Hold, owner: Node, a: nat, b: nat, ready: set<Node>)
    requires h.Valid() && h.version == Serial(a) && (h.pendingTo.Some? ==> h.requester > 0)
    requires a > 0 && b > 0 && -MAX_SERIAL_JUMP < a - b < MAX_SERIAL_JUMP
    ensures MergeReport(Some(h), owner, Serial(b), ready) ==
      if b <= a then Answer(Some(h), [])
      else Answer(Some(Hold(owner, Serial(b), 0, None, 0)),
                  if h.pendingTo.Some? && h.requester in ready then [To(h.requester, Denied)] else [])
    ensures MergeReport(None, owner, Serial(b), ready) == Answer(Some(Hold(owner, Serial(b), 0, None, 0)), [])
  {
    SerialNewerIsOrder(b, a);
  }

  // ------------------------------------------------------------------------------------------------------ At a node

  /** A node doesn't go back: of the announcements of one registry it takes those that aren't older than what it has. */
  lemma OldNewsIsIgnored(r: Replica, owner: Node, a: nat, b: nat)
    requires r.entry.Some? && r.entry.value.announced && r.entry.value.version == Serial(a)
    requires a > 0 && b > 0 && -MAX_SERIAL_JUMP < a - b < MAX_SERIAL_JUMP
    ensures var r' := TakeAnnounce(r, owner, Serial(b));
      if b < a then r' == r
      else r'.entry.Some? && r'.entry.value.owner == owner && r'.entry.value.version == Serial(b)
  {
    SerialNewerIsOrder(b, a);
  }

  /** What the game may do with an object: who doesn't own it asks for it, and waits; its owner releases it, once, and
      doesn't simulate it anymore; anyone assigns it; its owner drops it. What makes no sense does nothing. */
  lemma AsksExactly(r: Replica, local: Node, to: Node)
    requires r.entry.Some?
    ensures var e := r.entry.value;
      && TakeAsk(r, local, AskRequest) == (if e.owner == local then (r, []) else (Replica(r.entry, true), [Request]))
      && TakeAsk(r, local, AskRelease(to)) ==
           (if e.owner == local && !e.frozen && to != local
            then (Replica(Some(Entry(e.owner, e.version, e.announced, true, true)), r.pending),
                  [Release(e.version, to)])
            else (r, []))
      && TakeAsk(r, local, AskAssign(to)) == (Replica(r.entry, if e.owner == to then r.pending else true), [Assign(to)])
      && TakeAsk(r, local, AskDrop) == (r, if e.owner == local then [Drop] else [])
    ensures forall ask :: TakeAsk(Replica(None, r.pending), local, ask) == (Replica(None, r.pending), [])
  {}

  // ---------------------------------------------------------------------------------------------------- Over the steps

  /** The owner after a step of nodes, registry and network: besides what a message changes, an owner that left loses
      the object, now or when the registry can act again, and a newer report replaces it. */
  ghost function OwnerNext(s: Mesh, step: Step): Option<Node>
    requires Keyed(s) && Enabled(s, step) && s.hold.Some?
  {
    var h := s.hold.value;
    match step
    case RegistryTakes(n, _) => if s.phase == Acting then OwnerAfter(h, n, s.up[n][0], s.ready) else Some(h.owner)
    case RegistryTakesDeferred(_) =>
      if s.deferred[0].0 in s.ready then OwnerAfter(h, s.deferred[0].0, s.deferred[0].1, s.ready) else Some(h.owner)
    case Leaves(n, quorum) => Some(if quorum && n == h.owner then 0 else h.owner)
    case Resumes => Some(if s.orphanCheck && h.owner !in s.ready then 0 else h.owner)
    case FinishesTakeOver => Some(if h.owner in s.ready then h.owner else 0)
    case TakesReport(_, owner, count, _) =>
      Some(if count <= s.count then h.owner else if s.phase == Settling || owner in s.ready then owner else 0)
    case _ => Some(h.owner)
  }

  lemma OwnerFollows(s: Mesh, step: Step)
    requires Inv(s) && Enabled(s, step) && s.hold.Some?
    ensures OwnerOf(Next(s, step).hold) == OwnerNext(s, step)
  {
    if step.Resumes? {
      ResumesOwner(s);
    } else if step.TakesReport? {
      ReportedOwner(s, step.node, step.owner, step.count, step.last);
    } else if step.RegistryTakes? || step.RegistryTakesDeferred? {
      TakenOwner(s, step);
    } else {
      OtherOwner(s, step);
    }
  }

  lemma TakenOwner(s: Mesh, step: Step)
    requires Inv(s) && Enabled(s, step) && s.hold.Some? && (step.RegistryTakes? || step.RegistryTakesDeferred?)
    ensures OwnerOf(Next(s, step).hold) == OwnerNext(s, step)
  {
    if step.RegistryTakes? {
      var n := step.node;
      if s.phase == Acting {
        AnyOwnerIsAnswered(s.hold.value, n, s.up[n][0], s.ready, s.departed, step.corrected);
      }
    } else {
      var (n, m) := s.deferred[0];
      if n in s.ready { AnyOwnerIsAnswered(s.hold.value, n, m, s.ready, s.departed, step.corrected); }
    }
  }

  lemma ReportedOwner(s: Mesh, n: Node, owner: Node, count: nat, last: bool)
    requires Inv(s) && Enabled(s, TakesReport(n, owner, count, last)) && s.hold.Some?
    ensures OwnerOf(Next(s, TakesReport(n, owner, count, last)).hold) ==
      OwnerNext(s, TakesReport(n, owner, count, last))
  {
    SerialNewerIsOrder(count, s.count);
    MergedOwner(s, owner, count);
    if s.phase != Settling {
      if IsNews(s, count) {
        AnnouncedOwner(Merge(s, owner, count));
        BackOwner(AnnounceAgain(Merge(s, owner, count)), n, last);
      } else {
        BackOwner(s, n, last);
      }
    }
  }

  lemma AnnouncedOwner(s: Mesh)
    requires s.hold.Some? && s.hold.value.Valid()
    ensures OwnerOf(AnnounceAgain(s).hold) == Some(if s.hold.value.owner in s.ready then s.hold.value.owner else 0)
  {}

  lemma BackOwner(s: Mesh, n: Node, last: bool)
    ensures AnswerReport(s, n, last).hold == s.hold
  {}

  lemma MergedOwner(s: Mesh, owner: Node, count: nat)
    requires Keyed(s) && ValidHold(s) && s.hold.Some? && 0 < count
    ensures Merge(s, owner, count).ready == s.ready
    ensures Merge(s, owner, count).hold.value.owner == if IsNews(s, count) then owner else s.hold.value.owner
  {}

  /** The steps in which the registry doesn't take a message. */
  lemma OtherOwner(s: Mesh, step: Step)
    requires Inv(s) && Enabled(s, step) && s.hold.Some?
    requires !step.RegistryTakes? && !step.RegistryTakesDeferred? && !step.Resumes? && !step.TakesReport?
    ensures OwnerOf(Next(s, step).hold) == OwnerNext(s, step)
  {
    if step.Leaves? {
      LeaversOwner(s, step.node, step.quorum);
    } else if step.FinishesTakeOver? {
      FinishedOwner(s);
    } else if !step.TimesOut? {
      assert Next(s, step).hold == s.hold;
    }
  }

  lemma LeaversOwner(s: Mesh, n: Node, quorum: bool)
    requires Keyed(s) && Enabled(s, Leaves(n, quorum)) && s.hold.Some?
    ensures OwnerOf(Next(s, Leaves(n, quorum)).hold) == OwnerNext(s, Leaves(n, quorum))
  {}

  lemma FinishedOwner(s: Mesh)
    requires Keyed(s) && Enabled(s, FinishesTakeOver) && s.hold.Some?
    ensures OwnerOf(Next(s, FinishesTakeOver).hold) == OwnerNext(s, FinishesTakeOver)
  {}

  lemma AnyOwnerIsAnswered(h: Hold, from: Node, m: ToRegistry, ready: set<Node>, departed: set<Node>, corrected: bool)
    requires h.Valid() && from > 0 && from in ready
    ensures OwnerOf(Handle(Some(h), from, m, ready, departed, corrected).hold) == OwnerAfter(h, from, m, ready)
  {
    if m != Drop && (m.Request? ==> from != h.owner) {
      OwnerIsAnswered(h, from, m, ready, departed, corrected);
    }
  }

  lemma ResumesOwner(s: Mesh)
    requires Inv(s) && Enabled(s, Resumes) && s.hold.Some?
    ensures OwnerOf(Next(s, Resumes).hold) == OwnerNext(s, Resumes)
  {
    var s0 := s.(phase := Acting, orphanCheck := false);
    if s.orphanCheck {
      var h := s.hold.value;
      var pending := if h.pendingTo.Some? then h.pendingTo.value else 0;
      LostOwner(s0, h.owner);
      LostOwner(LoseNode(s0, h.owner), pending);
      LostOwner(LoseNode(LoseNode(s0, h.owner), pending), h.requester);
    }
  }

  lemma LostOwner(s: Mesh, n: Node)
    requires s.hold.Some? && s.hold.value.Valid()
    ensures LoseNode(s, n).ready == s.ready && OwnerOf(LoseNode(s, n).hold) ==
      Some(if n == s.hold.value.owner && n !in s.ready then 0 else s.hold.value.owner)
  {}

  // ----------------------------------------------------------------------------------------------- From ask to replica

  /** Once a node is the owner, every replica that takes everything says so, for as long as the record stays. */
  lemma EveryoneLearns(s: Mesh, steps: seq<Step>, s': Mesh)
    requires RunInv(s) && Run(s, steps, s') && s.hold.Some? && s'.hold == s.hold && s'.phase != Settling
    ensures Keyed(s') && forall n :: n in s'.ready && s'.down[n] == [] ==>
      s'.nodes[n].entry.Some? && s'.nodes[n].entry.value.owner == s.hold.value.owner
  {
    RunKeeps(s, steps, s');
    forall n | n in s'.ready && s'.down[n] == []
      ensures s'.nodes[n].entry.Some? && s'.nodes[n].entry.value.owner == s.hold.value.owner
    {
      assert NodeInv(s', n);
    }
  }

  /** A mesh in which the owner of an object took everything and keeps it, no transfer is in progress, and another node
      has nothing under way. */
  ghost predicate IsCalm(s: Mesh, n: Node, owner: Node) {
    && Inv(s) && s.phase == Acting && s.hold.Some? && s.hold.value.owner == owner && s.hold.value.pendingTo.None?
    && n in s.ready && owner in s.ready && n != owner && s.up[n] == [] && s.up[owner] == [] && s.down[owner] == []
    && s.nodes[owner].entry.Some? && !s.nodes[owner].entry.value.frozen
    && s.nodes[n].entry.Some? && s.nodes[n].entry.value.owner != n
  }

  /** The owner was asked for its object: nothing else is on its way to it, or from it. */
  ghost predicate IsAsked(s: Mesh, n: Node, owner: Node, version: nat, to: Node, forced: bool) {
    && Keyed(s) && s.phase == Acting && n in s.ready && owner in s.ready && 0 < n && 0 < owner && n != owner
    && (to == 0 || to in s.ready) && to != owner
    && s.hold.Some? && s.hold.value.Valid() && s.hold.value.owner == owner && s.hold.value.version == version
    && s.hold.value.pendingTo == Some(to) && s.hold.value.requester == n
    && s.up[owner] == [] && s.down[owner] == [Transfer(version, to, forced)]
    && CanTransfer(s.nodes[owner], owner, version)
  }

  lemma OwnerIsCurrent(s: Mesh, n: Node, owner: Node)
    requires IsCalm(s, n, owner)
    ensures CanTransfer(s.nodes[owner], owner, s.hold.value.version)
    ensures Keyed(s) && owner > 0 && n > 0 && ValidHold(s)
  {
    assert NodeInv(s, owner);
  }

  /** The node asks, and the registry asks the owner. */
  function Asking(n: Node, ask: Ask): seq<Step> {
    [GameAsks(n, ask), RegistryTakes(n, false)]
  }

  lemma RequestIsPassedOn(s: Mesh, n: Node, owner: Node) returns (s': Mesh)
    requires IsCalm(s, n, owner)
    ensures Run(s, Asking(n, AskRequest), s') && Inv(s') && IsAsked(s', n, owner, s.hold.value.version, n, false)
    ensures s'.nodes[n].pending && s'.nodes[owner] == s.nodes[owner]
  {
    OwnerIsCurrent(s, n, owner);
    StepKeeps(s, GameAsks(n, AskRequest));
    var s1 := Asks(s, n, AskRequest, Request);
    s' := AskReaches(s1, n, owner, Request, n);
    TwoSteps(s, GameAsks(n, AskRequest), RegistryTakes(n, false), s');
    StepKeeps(s1, RegistryTakes(n, false));
  }

  lemma AssignmentIsPassedOn(s: Mesh, n: Node, owner: Node, to: Node) returns (s': Mesh)
    requires IsCalm(s, n, owner) && to != owner && (to == 0 || to in s.ready)
    ensures Run(s, Asking(n, AskAssign(to)), s') && Inv(s') && IsAsked(s', n, owner, s.hold.value.version, to, true)
    ensures s'.nodes[owner] == s.nodes[owner]
  {
    OwnerIsCurrent(s, n, owner);
    StepKeeps(s, GameAsks(n, AskAssign(to)));
    var s1 := Asks(s, n, AskAssign(to), Assign(to));
    s' := AskReaches(s1, n, owner, Assign(to), to);
    TwoSteps(s, GameAsks(n, AskAssign(to)), RegistryTakes(n, false), s');
    StepKeeps(s1, RegistryTakes(n, false));
  }

  lemma Asks(s: Mesh, n: Node, ask: Ask, m: ToRegistry) returns (s1: Mesh)
    requires Keyed(s) && ValidHold(s) && n in s.ready && s.up[n] == []
    requires s.nodes[n].entry.Some? && s.nodes[n].entry.value.owner != n
    requires (ask == AskRequest && m == Request) || (ask.AskAssign? && m == Assign(ask.to))
    ensures Enabled(s, GameAsks(n, ask)) && s1 == Next(s, GameAsks(n, ask))
    ensures s1 == s.(nodes := s.nodes[n := s1.nodes[n]], up := s.up[n := [m]]) && (m.Request? ==> s1.nodes[n].pending)
  {
    s1 := Next(s, GameAsks(n, ask));
    assert s.up[n] + [m] == [m];
  }

  lemma AskReaches(s: Mesh, n: Node, owner: Node, m: ToRegistry, to: Node) returns (s': Mesh)
    requires Keyed(s) && s.phase == Acting && n in s.ready && owner in s.ready && 0 < n && 0 < owner && n != owner
    requires s.hold.Some? && s.hold.value.Valid() && s.hold.value.owner == owner && s.hold.value.pendingTo.None?
    requires s.up[n] == [m] && s.up[owner] == [] && s.down[owner] == []
    requires CanTransfer(s.nodes[owner], owner, s.hold.value.version)
    requires CanWant(n, m, s.ready) && Wanted(n, m) == to && to != owner
    ensures Enabled(s, RegistryTakes(n, false)) && s' == Next(s, RegistryTakes(n, false))
    ensures IsAsked(s', n, owner, s.hold.value.version, to, m.Assign?) && s'.nodes == s.nodes
  {
    s' := Next(s, RegistryTakes(n, false));
    OwnerIsAsked(s.hold.value, n, m, s.ready, s.departed);
    OneSent(s.down, To(owner, Transfer(s.hold.value.version, to, m.Assign?)));
  }

  lemma OneSent(down: map<Node, seq<FromRegistry>>, o: Out)
    ensures SendAll(down, [o]) == Send(down, o)
  {
    assert [o][..0] == [];
  }

  lemma TwoSteps(s: Mesh, a: Step, b: Step, s': Mesh)
    requires Keyed(s) && Enabled(s, a) && Keyed(Next(s, a)) && Enabled(Next(s, a), b) && s' == Next(Next(s, a), b)
    ensures Run(s, [a, b], s')
  {
    assert [a, b][1..] == [b] && [b][1..] == [];
    assert Run(Next(s, a), [b], s');
  }

  lemma TwoStepsKeep(s: Mesh, a: Step, b: Step, s': Mesh)
    requires Inv(s) && Enabled(s, a) && Keyed(Next(s, a)) && Enabled(Next(s, a), b) && s' == Next(Next(s, a), b)
    ensures Inv(s')
  {
    StepKeeps(s, a);
    StepKeeps(Next(s, a), b);
  }

  /** The owner takes what it is asked, and the registry takes its answer. */
  function Answering(owner: Node, approved: bool): seq<Step> {
    [NodeTakes(owner, approved), RegistryTakes(owner, false)]
  }

  /** What the owner answers. */
  function AnswerOf(version: nat, to: Node, released: bool): ToRegistry {
    if released then Release(version, to) else Refuse(version)
  }

  lemma OwnerAnswers(s: Mesh, n: Node, owner: Node, version: nat, to: Node, forced: bool, approved: bool)
    returns (s1: Mesh)
    requires IsAsked(s, n, owner, version, to, forced)
    ensures Enabled(s, NodeTakes(owner, approved)) && s1 == Next(s, NodeTakes(owner, approved)) && Keyed(s1)
    ensures s1.up[owner] == [AnswerOf(version, to, forced || approved)] && s1.down == s.down[owner := []]
    ensures s1.hold == s.hold && s1.ready == s.ready && s1.phase == Acting && s1.departed == s.departed
    ensures !forced && !approved ==> s1.nodes[owner] == s.nodes[owner]
  {
    s1 := Next(s, NodeTakes(owner, approved));
    var taken := Take(s.nodes[owner], owner, s.down[owner][0], approved);
    assert taken.1 == [AnswerOf(version, to, forced || approved)];
    assert s.up[owner] + taken.1 == taken.1 && s.down[owner][1..] == [];
  }

  /** The registry takes the only message of the owner, and sends one. */
  lemma RegistryAnswers(s: Mesh, owner: Node, m: ToRegistry, a: Answer, o: Out) returns (s': Mesh)
    requires Keyed(s) && ValidHold(s) && s.phase == Acting && owner in s.ready && s.up[owner] == [m] && !m.Claim?
    requires a == Handle(s.hold, owner, m, s.ready, s.departed, false) && a.outs == [o]
    ensures Enabled(s, RegistryTakes(owner, false)) && s' == Next(s, RegistryTakes(owner, false)) && Keyed(s')
    ensures s'.hold == a.hold && s'.phase == Acting && s'.down == Send(s.down, o) && s'.nodes == s.nodes
    ensures s'.ready == s.ready
  {
    s' := Next(s, RegistryTakes(owner, false));
    OneSent(s.down, o);
  }

  /** The last message on its way to a node. */
  ghost predicate IsTold(s: Mesh, k: Node, m: FromRegistry)
    requires Keyed(s) && k in s.ready
  {
    s.down[k] != [] && s.down[k][|s.down[k]| - 1] == m
  }

  /** Granted, or not to be refused: the node the object was asked for is the owner, and everyone is told. */
  lemma TransferIsDone(s: Mesh, n: Node, owner: Node, version: nat, to: Node, forced: bool, approved: bool)
    returns (s': Mesh)
    requires Inv(s) && IsAsked(s, n, owner, version, to, forced) && (forced || approved)
    ensures Run(s, Answering(owner, approved), s') && Inv(s') && s'.phase == Acting && s'.hold.Some?
    ensures s'.hold.value.owner == to && s'.hold.value.pendingTo.None? && s'.ready == s.ready
    ensures forall k :: k in s'.ready ==> IsTold(s', k, Announce(to, s'.hold.value.version))
  {
    var s1 := OwnerAnswers(s, n, owner, version, to, forced, approved);
    var a := Handle(s.hold, owner, Release(version, to), s.ready, s.departed, false);
    ReleaseGives(s.hold.value, owner, to, s.ready, s.departed);
    s' := RegistryAnswers(s1, owner, Release(version, to), a, ToAll(Announce(to, NextSerial(version))));
    EveryoneIsTold(s1, s', Announce(to, NextSerial(version)));
    TwoSteps(s, NodeTakes(owner, approved), RegistryTakes(owner, false), s');
    TwoStepsKeep(s, NodeTakes(owner, approved), RegistryTakes(owner, false), s');
  }

  lemma EveryoneIsTold(s: Mesh, s': Mesh, m: FromRegistry)
    requires Keyed(s) && Keyed(s') && s'.ready == s.ready && s'.down == Send(s.down, ToAll(m))
    ensures forall k :: k in s'.ready ==> IsTold(s', k, m)
  {}

  lemma ReleaseGives(h: Hold, owner: Node, to: Node, ready: set<Node>, departed: set<Node>)
    requires h.Valid() && h.owner == owner && (h.pendingTo.None? || h.pendingTo == Some(to)) && to != owner
    requires to == 0 || to in ready
    ensures var a := Handle(Some(h), owner, Release(h.version, to), ready, departed, false);
      && a.outs == [ToAll(Announce(to, NextSerial(h.version)))]
      && a.hold.Some? && a.hold.value.owner == to && a.hold.value.version == NextSerial(h.version)
      && a.hold.value.pendingTo.None?
  {}

  /** Refused: the owner keeps the object, simulated, and who asked is told. */
  lemma RequestIsRefused(s: Mesh, n: Node, owner: Node, version: nat, to: Node) returns (s': Mesh)
    requires Inv(s) && IsAsked(s, n, owner, version, to, false)
    ensures Run(s, Answering(owner, false), s') && Inv(s') && s'.hold.Some? && s'.hold.value.owner == owner
    ensures s'.hold.value.pendingTo.None? && s'.hold.value.version == version && n in s'.ready && owner in s'.ready
    ensures IsTold(s', n, Denied) && s'.nodes[owner] == s.nodes[owner]
  {
    var s1 := OwnerAnswers(s, n, owner, version, to, false, false);
    var a := Handle(s.hold, owner, Refuse(version), s.ready, s.departed, false);
    RefusalEnds(s.hold.value, owner, version, s.ready, s.departed);
    s' := RegistryAnswers(s1, owner, Refuse(version), a, To(n, Denied));
    TwoSteps(s, NodeTakes(owner, false), RegistryTakes(owner, false), s');
    TwoStepsKeep(s, NodeTakes(owner, false), RegistryTakes(owner, false), s');
  }

  /** A node that waits for an object doesn't anymore once it is denied, or told of another owner than it knew; and one
      told that it owns the object simulates it. */
  lemma WaitEnds(r: Replica, local: Node, owner: Node, version: nat)
    ensures !TakeDenial(r, local).pending
    ensures !IsOld(r, version) && owner != (if r.entry.Some? then r.entry.value.owner else 0) ==>
      var r' := TakeAnnounce(r, owner, version);
      !r'.pending && r'.entry == Some(Entry(owner, version, true, false, false))
  {}

  /** What the game releases is given: the node it releases the object to is the owner, and everyone is told. */
  lemma ReleaseIsDone(s: Mesh, n: Node, owner: Node, to: Node) returns (s': Mesh)
    requires IsCalm(s, n, owner) && to != owner && (to == 0 || to in s.ready)
    ensures Run(s, [GameAsks(owner, AskRelease(to)), RegistryTakes(owner, false)], s') && Inv(s') && s'.hold.Some?
    ensures s'.hold.value.owner == to && s'.ready == s.ready
    ensures forall k :: k in s'.ready ==> IsTold(s', k, Announce(to, s'.hold.value.version))
  {
    OwnerIsCurrent(s, n, owner);
    var version := s.hold.value.version;
    var s1 := OwnerAsks(s, owner, AskRelease(to), Release(version, to));
    var a := Handle(s.hold, owner, Release(version, to), s.ready, s.departed, false);
    ReleaseGives(s.hold.value, owner, to, s.ready, s.departed);
    s' := RegistryAnswers(s1, owner, Release(version, to), a, ToAll(Announce(to, NextSerial(version))));
    EveryoneIsTold(s1, s', Announce(to, NextSerial(version)));
    TwoSteps(s, GameAsks(owner, AskRelease(to)), RegistryTakes(owner, false), s');
    TwoStepsKeep(s, GameAsks(owner, AskRelease(to)), RegistryTakes(owner, false), s');
  }

  /** What its owner drops is gone, and everyone is told. */
  lemma DropIsDone(s: Mesh, n: Node, owner: Node) returns (s': Mesh)
    requires IsCalm(s, n, owner)
    ensures Run(s, [GameAsks(owner, AskDrop), RegistryTakes(owner, false)], s') && Inv(s') && s'.hold.None?
    ensures s'.ready == s.ready && forall k :: k in s'.ready ==> IsTold(s', k, Unregister)
  {
    OwnerIsCurrent(s, n, owner);
    var s1 := OwnerAsks(s, owner, AskDrop, Drop);
    var a := Handle(s.hold, owner, Drop, s.ready, s.departed, false);
    s' := RegistryAnswers(s1, owner, Drop, a, ToAll(Unregister));
    EveryoneIsTold(s1, s', Unregister);
    TwoSteps(s, GameAsks(owner, AskDrop), RegistryTakes(owner, false), s');
    TwoStepsKeep(s, GameAsks(owner, AskDrop), RegistryTakes(owner, false), s');
  }

  lemma OwnerAsks(s: Mesh, owner: Node, ask: Ask, m: ToRegistry) returns (s1: Mesh)
    requires Keyed(s) && ValidHold(s) && owner in s.ready && s.up[owner] == [] && s.nodes[owner].entry.Some?
    requires TakeAsk(s.nodes[owner], owner, ask).1 == [m]
    ensures Enabled(s, GameAsks(owner, ask)) && s1 == Next(s, GameAsks(owner, ask)) && Keyed(s1) && ValidHold(s1)
    ensures s1 == s.(nodes := s1.nodes, up := s.up[owner := [m]])
  {
    s1 := Next(s, GameAsks(owner, ask));
    assert s.up[owner] + [m] == [m];
  }

  lemma ClaimIsTaken(s: Mesh, n: Node, owner: Node) returns (s': Mesh)
    requires Keyed(s) && s.phase == Acting && s.hold.None? && !s.gone && n in s.ready && n > 0
      && s.up[n] == [Claim(owner)]
    requires (owner == 0 || owner in s.ready)
    ensures Enabled(s, RegistryTakes(n, false)) && s' == Next(s, RegistryTakes(n, false)) && Keyed(s')
    ensures s'.hold == Some(Hold(if owner > 0 then owner else n, 1, 0, None, 0)) && s'.ready == s.ready
    ensures s'.down == Send(s.down, ToAll(Announce(s'.hold.value.owner, 1)))
  {
    FirstOwner(n, owner, s.ready, s.departed);
    s' := Next(s, RegistryTakes(n, false));
    OneSent(s.down, ToAll(Announce(if owner > 0 then owner else n, 1)));
  }

  /** What is claimed first is owned: by who is named, or who claims it; and everyone is told. */
  lemma ClaimIsDone(s: Mesh, n: Node, owner: Node) returns (s': Mesh)
    requires Inv(s) && s.phase == Acting && s.hold.None? && !s.gone && n in s.ready && s.up[n] == []
    requires owner == 0 || owner in s.ready
    ensures Run(s, [ClaimsObject(n, owner), RegistryTakes(n, false)], s') && Inv(s') && s'.hold.Some?
    ensures s'.hold.value == Hold(if owner > 0 then owner else n, 1, 0, None, 0) && s'.ready == s.ready
    ensures forall k :: k in s'.ready ==> IsTold(s', k, Announce(s'.hold.value.owner, 1))
  {
    var s1 := Next(s, ClaimsObject(n, owner));
    assert s.up[n] + [Claim(owner)] == [Claim(owner)];
    s' := ClaimIsTaken(s1, n, owner);
    EveryoneIsTold(s1, s', Announce(s'.hold.value.owner, 1));
    TwoSteps(s, ClaimsObject(n, owner), RegistryTakes(n, false), s');
    TwoStepsKeep(s, ClaimsObject(n, owner), RegistryTakes(n, false), s');
  }

  // ------------------------------------------------------------------------------------------------------ What waits

  /** What comes to a registry that can't act waits for it, in order, up to 4096 messages. A release that can't wait is
      denied, so its object isn't left frozen; releases and refusals wait for a registry that settles only. */
  lemma WhatWaits(s: Mesh, n: Node)
    requires HoldInv(s) && Enabled(s, RegistryTakes(n, false)) && s.phase != Acting
    ensures var s', m := Next(s, RegistryTakes(n, false)), s.up[n][0];
      var waits := |s.deferred| < 4096 && (s.phase == Settling || (!m.Release? && !m.Refuse?));
      && s'.up == s.up[n := s.up[n][1..]] && s'.hold == s.hold && s'.phase == s.phase
      && s'.deferred == (if waits then s.deferred + [(n, m)] else s.deferred)
      && s'.down == if m.Release? && !waits then s.down[n := s.down[n] + [Denied]] else s.down
  {
    PostponeIs(s.(up := s.up[n := s.up[n][1..]]), n, s.up[n][0]);
  }

  lemma PostponeIs(s: Mesh, n: Node, m: ToRegistry)
    requires Keyed(s) && n in s.ready && n > 0
    ensures var s' := Postpone(s, n, m);
      var waits := |s.deferred| < 4096 && (s.phase == Settling || (!m.Release? && !m.Refuse?));
      s' == s.(deferred := if waits then s.deferred + [(n, m)] else s.deferred,
               down := if m.Release? && !waits then s.down[n := s.down[n] + [Denied]] else s.down)
  {
    OneSent(s.down, To(n, Denied));
    assert SendAll(s.down, []) == s.down;
  }

  /** Who reports to a registry that acts gets its record after the last message of the report, newer or not. */
  lemma ReporterIsTold(s: Mesh, n: Node, owner: Node, count: nat)
    requires Inv(s) && s.phase == Acting && Enabled(s, TakesReport(n, owner, count, true))
    ensures var s' := Next(s, TakesReport(n, owner, count, true));
      && Keyed(s') && n in s'.ready && s'.hold.Some?
      && IsTold(s', n, Announce(s'.hold.value.owner, s'.hold.value.version))
  {
    MergeIsForward(s, owner, count);
    var s1 := if IsNews(s, count) then AnnounceAgain(Merge(s, owner, count)) else s;
    ReportedHold(s, owner, count);
    BackIsTold(s1, n);
  }

  lemma BackIsTold(s: Mesh, n: Node)
    requires Keyed(s) && n in s.ready && s.hold.Some?
    ensures var s' := AnswerReport(s, n, true);
      && Keyed(s') && s'.ready == s.ready && s'.hold == s.hold
      && IsTold(s', n, Announce(s.hold.value.owner, s.hold.value.version))
  {
    OneSent(s.down, To(n, Announce(s.hold.value.owner, s.hold.value.version)));
  }

  lemma ReportedHold(s: Mesh, owner: Node, count: nat)
    requires Keyed(s) && ValidHold(s) && 0 < count
    ensures var s1 := if IsNews(s, count) then AnnounceAgain(Merge(s, owner, count)) else s;
      s1.hold.Some? && s1.ready == s.ready
  {}

  /** A node sends the states of an object it owns, under the version it knows, until it releases it. */
  lemma OwnersSendStates(s: Mesh, n: Node)
    requires Keyed(s) && Enabled(s, SendsState(n))
    ensures var s', e := Next(s, SendsState(n)), s.nodes[n].entry;
      s' == if e.Some? && e.value.owner == n && !e.value.frozen
            then s.(samples := s.samples + {Sample(n, e.value.version, s.at[n])}) else s
  {}

  // ------------------------------------------------------------------------------------------------ Who transfers name

  /** A transfer in progress names nodes that are ready: who asked, and who gets the object; or the registry will look,
      when it can act again, for the ones that left. */
  ghost predicate NamesReady(s: Mesh) {
    s.hold.Some? && s.hold.value.pendingTo.Some? ==>
      && s.phase != Settling && s.hold.value.requester > 0
      && (!s.orphanCheck ==>
          s.hold.value.requester in s.ready && IsReadyOrNobody(s.hold.value.pendingTo.value, s.ready))
  }

  predicate IsReadyOrNobody(n: Node, ready: set<Node>) {
    n == 0 || n in ready
  }

  lemma AnswerNames(h: Option<Hold>, from: Node, m: ToRegistry, ready: set<Node>, departed: set<Node>, corrected: bool)
    requires (h.Some? ==> h.value.Valid()) && from in ready && from > 0
    requires h.Some? && h.value.pendingTo.Some? ==>
      h.value.requester > 0 && h.value.requester in ready && IsReadyOrNobody(h.value.pendingTo.value, ready)
    ensures var h' := Handle(h, from, m, ready, departed, corrected).hold;
      h'.Some? && h'.value.pendingTo.Some? ==>
        h'.value.requester > 0 && h'.value.requester in ready && IsReadyOrNobody(h'.value.pendingTo.value, ready)
  {}

  lemma StepNamesReady(s: Mesh, step: Step)
    requires Inv(s) && Enabled(s, step) && NamesReady(s) && (s.phase == Acting ==> !s.orphanCheck)
    ensures NamesReady(Next(s, step)) && (Next(s, step).phase == Acting ==> !Next(s, step).orphanCheck)
  {
    if step.RegistryTakes? || step.RegistryTakesDeferred? {
      TakenNames(s, step);
    } else if step.Resumes? {
      ResumesNames(s);
    } else if step.TakesReport? {
      ReportNames(s, step.node, step.owner, step.count, step.last);
    } else if step.Leaves? {
      LeavesNames(s, step.node, step.quorum);
    } else {
      OtherNames(s, step);
    }
  }

  lemma TakenNames(s: Mesh, step: Step)
    requires Inv(s) && Enabled(s, step) && NamesReady(s) && (s.phase == Acting ==> !s.orphanCheck)
    requires step.RegistryTakes? || step.RegistryTakesDeferred?
    ensures NamesReady(Next(s, step)) && (Next(s, step).phase == Acting ==> !Next(s, step).orphanCheck)
  {
    if step.RegistryTakesDeferred? {
      var (n, m) := s.deferred[0];
      if n in s.ready { AnswerNames(s.hold, n, m, s.ready, s.departed, step.corrected); }
    } else if s.phase == Acting {
      AnswerNames(s.hold, step.node, s.up[step.node][0], s.ready, s.departed, step.corrected);
    }
  }

  lemma OtherNames(s: Mesh, step: Step)
    requires Inv(s) && Enabled(s, step) && NamesReady(s) && (s.phase == Acting ==> !s.orphanCheck)
    requires !step.RegistryTakes? && !step.RegistryTakesDeferred? && !step.Resumes? && !step.TakesReport?
      && !step.Leaves?
    ensures NamesReady(Next(s, step)) && (Next(s, step).phase == Acting ==> !Next(s, step).orphanCheck)
  {}

  lemma LeavesNames(s: Mesh, n: Node, quorum: bool)
    requires Inv(s) && Enabled(s, Leaves(n, quorum)) && NamesReady(s) && (s.phase == Acting ==> !s.orphanCheck)
    ensures NamesReady(Next(s, Leaves(n, quorum)))
    ensures Next(s, Leaves(n, quorum)).phase == Acting ==> !Next(s, Leaves(n, quorum)).orphanCheck
  {}

  lemma ReportNames(s: Mesh, n: Node, owner: Node, count: nat, last: bool)
    requires Inv(s) && Enabled(s, TakesReport(n, owner, count, last)) && NamesReady(s)
    requires s.phase == Acting ==> !s.orphanCheck
    ensures NamesReady(Next(s, TakesReport(n, owner, count, last)))
    ensures var s' := Next(s, TakesReport(n, owner, count, last)); s'.phase == Acting ==> !s'.orphanCheck
  {}

  lemma ResumesNames(s: Mesh)
    requires Inv(s) && Enabled(s, Resumes) && NamesReady(s)
    ensures NamesReady(Next(s, Resumes)) && !Next(s, Resumes).orphanCheck
  {
    var s0 := s.(phase := Acting, orphanCheck := false);
    if s.orphanCheck && s.hold.Some? {
      var h := s.hold.value;
      var pending := if h.pendingTo.Some? then h.pendingTo.value else 0;
      LostNames(s0, h.owner);
      LostNames(LoseNode(s0, h.owner), pending);
      LostNames(LoseNode(LoseNode(s0, h.owner), pending), h.requester);
    }
  }

  lemma LostNames(s: Mesh, n: Node)
    requires s.hold.Some? && s.hold.value.Valid()
    ensures var s' := LoseNode(s, n);
      && s'.ready == s.ready && s'.phase == s.phase && s'.orphanCheck == s.orphanCheck && s'.hold.Some?
      && (s'.hold.value.pendingTo.Some? ==>
            && s'.hold == s.hold
            && (n != 0 && n !in s.ready ==> s.hold.value.pendingTo != Some(n) && s.hold.value.requester != n))
  {}

  /** In every run, a registry that acts asks for objects in the name of nodes that are there, and for nodes that
      are. */
  lemma {:induction false} TransfersNameReadyNodes(s: Mesh, steps: seq<Step>, s': Mesh)
    requires Inv(s) && NamesReady(s) && (s.phase == Acting ==> !s.orphanCheck) && Run(s, steps, s')
    ensures NamesReady(s') && (s'.phase == Acting ==> !s'.orphanCheck)
    decreases |steps|
  {
    if steps != [] {
      StepKeeps(s, steps[0]);
      StepNamesReady(s, steps[0]);
      TransfersNameReadyNodes(Next(s, steps[0]), steps[1..], s');
    }
  }
}
