/** Who owns an object of a mesh: what the registry does with the messages about one object, and what a node does with
    the registry's answers. */
module Ownership {
  import opened Frames
  import opened Snapshots

  /** A node of the mesh; 0 is nobody. */
  type Node = nat

  datatype ToRegistry =
    | Claim(owner: Node)
    | Drop
    | Request
    | Assign(target: Node)
    | Release(version: nat, to: Node)
    | Refuse(version: nat)

  datatype FromRegistry =
    | Announce(owner: Node, version: nat)
    | Unregister
    | Transfer(version: nat, to: Node, forced: bool)
    | Denied

  /** What the registry sends: to every ready node, itself included, or to one of them. */
  datatype Out = ToAll(m: FromRegistry) | To(node: Node, m: FromRegistry)

  // --------------------------------------------------------------------------------------------------- Registry

  /** The registry's record of an object. `previous`: the version before it was announced again with the same owner (0:
      none). `pendingTo`, `requester`: the transfer in progress. */
  datatype Hold = Hold(owner: Node, version: nat, previous: nat, pendingTo: Option<Node>, requester: Node)
  {
    predicate Valid() { 0 < version < U32 && previous < U32 }
  }

  datatype Answer = Answer(hold: Option<Hold>, outs: seq<Out>)

  function Deny(ready: set<Node>, node: Node): seq<Out> {
    if node > 0 && node in ready then [To(node, Denied)] else []
  }

  /** registry_change_owner. */
  function ChangeOwner(h: Hold, owner: Node, ready: set<Node>): (r: Answer)
    requires h.Valid()
    ensures r.hold.Some? && r.hold.value.Valid()
  {
    var version := NextSerial(h.version);
    Answer(Some(Hold(owner, version, if h.owner == owner then h.version else 0, None, 0)),
           (if h.pendingTo.Some? && h.pendingTo != Some(owner) then Deny(ready, h.requester) else []) +
           [ToAll(Announce(owner, version))])
  }

  /** registry_handle_request. */
  function HandleRequest(hold: Option<Hold>, from: Node, ready: set<Node>): Answer
    requires hold.Some? ==> hold.value.Valid()
  {
    if hold.None? || hold.value.pendingTo.Some? then Answer(hold, Deny(ready, from))
    else
      var h := hold.value;
      if h.owner == from then Answer(hold, [])
      else if h.owner !in ready then ChangeOwner(h, from, ready)
      else Answer(Some(h.(pendingTo := Some(from), requester := from)),
                  [To(h.owner, Transfer(h.version, from, false))])
  }

  /** registry_handle_assign. */
  function HandleAssign(hold: Option<Hold>, from: Node, target: Node, ready: set<Node>): Answer
    requires hold.Some? ==> hold.value.Valid()
  {
    if hold.None? || hold.value.pendingTo.Some? || (target > 0 && target !in ready)
    then Answer(hold, Deny(ready, from))
    else
      var h := hold.value;
      if h.owner == target then Answer(hold, [])
      else if h.owner !in ready then ChangeOwner(h, target, ready)
      else Answer(Some(h.(pendingTo := Some(target), requester := from)),
                  [To(h.owner, Transfer(h.version, target, true))])
  }

  /** Whether a release is the current owner's, for the current version or for the one before it was announced again. */
  predicate IsCurrent(hold: Option<Hold>, from: Node, version: nat) {
    hold.Some? && hold.value.owner == from &&
    (hold.value.version == version || (hold.value.previous != 0 && hold.value.previous == version))
  }

  /** registry_handle_release, of an object released to `to`. */
  function HandleRelease(hold: Option<Hold>, from: Node, version: nat, to: Node, ready: set<Node>): Answer
    requires hold.Some? ==> hold.value.Valid()
  {
    if !IsCurrent(hold, from, version) then Answer(hold, Deny(ready, from))
    else if to == hold.value.owner then Answer(hold, Deny(ready, from))
    else ChangeOwner(hold.value, if to > 0 && to !in ready then 0 else to, ready)
  }

  /** registry_handle_release, of the refusal of a request. */
  function HandleRefusal(hold: Option<Hold>, from: Node, version: nat, ready: set<Node>): Answer {
    if !IsCurrent(hold, from, version) then Answer(hold, [])
    else Answer(Some(hold.value.(pendingTo := None, requester := 0)), Deny(ready, hold.value.requester))
  }

  /** registry_handle_drop. */
  function HandleDrop(hold: Option<Hold>, from: Node): Answer {
    if hold.None? || hold.value.owner != from then Answer(hold, []) else Answer(None, [ToAll(Unregister)])
  }

  /** registry_handle_claim. For a path that is registered, the claimant gets what the record says; `corrected`: its
      hash changed, so everyone does. A node that `departed` doesn't become the first owner. */
  function HandleClaim(hold: Option<Hold>, from: Node, owner: Node, ready: set<Node>, departed: set<Node>,
                       corrected: bool): Answer
    requires hold.Some? ==> hold.value.Valid()
  {
    if hold.Some? then
      if corrected then ChangeOwner(hold.value, hold.value.owner, ready)
      else Answer(hold, [To(from, Announce(hold.value.owner, hold.value.version))])
    else
      var first := if owner > 0 then owner else from;
      var held := if first !in ready && first in departed then 0 else first;
      Answer(Some(Hold(held, 1, 0, None, 0)), [ToAll(Announce(held, 1))])
  }

  /** registry_on_peer_left. */
  function PeerLeft(hold: Option<Hold>, node: Node, ready: set<Node>): Answer
    requires hold.Some? ==> hold.value.Valid()
  {
    if hold.None? then Answer(hold, [])
    else if hold.value.owner == node then ChangeOwner(hold.value, 0, ready)
    else if hold.value.pendingTo.Some? && (hold.value.pendingTo == Some(node) || hold.value.requester == node) then
      Answer(Some(hold.value.(pendingTo := None, requester := 0)),
             if hold.value.requester != node then Deny(ready, hold.value.requester) else [])
    else Answer(hold, [])
  }

  /** registry_check_timeouts, when the transfer in progress timed out. */
  function TimeOut(hold: Option<Hold>, ready: set<Node>): Answer {
    if hold.None? || hold.value.pendingTo.None? then Answer(hold, [])
    else Answer(Some(hold.value.(pendingTo := None, requester := 0)), Deny(ready, hold.value.requester))
  }

  /** handle_registry_report: another node's view of the object. A newer one replaces the record; after the takeover
      (`late`) it is announced as it comes. */
  function MergeReport(hold: Option<Hold>, owner: Node, version: nat, ready: set<Node>): Answer {
    if hold.Some? && !SerialNewer(version, hold.value.version) then Answer(hold, [])
    else Answer(Some(Hold(owner, version, 0, None, 0)),
                if hold.Some? && hold.value.pendingTo.Some? then Deny(ready, hold.value.requester) else [])
  }

  /** What a registry that can act does with a message. */
  function Handle(hold: Option<Hold>, from: Node, m: ToRegistry, ready: set<Node>, departed: set<Node>,
                  corrected: bool): Answer
    requires hold.Some? ==> hold.value.Valid()
  {
    match m
    case Claim(owner) => HandleClaim(hold, from, owner, ready, departed, corrected)
    case Drop => HandleDrop(hold, from)
    case Request => HandleRequest(hold, from, ready)
    case Assign(target) => HandleAssign(hold, from, target, ready)
    case Release(version, to) => HandleRelease(hold, from, version, to, ready)
    case Refuse(version) => HandleRefusal(hold, from, version, ready)
  }

  /** Every release of a ready node gets an answer: a denial to it, or an announcement of another owner to everyone. */
  lemma ReleaseIsAnswered(hold: Option<Hold>, from: Node, version: nat, to: Node, ready: set<Node>)
    requires hold.Some? ==> hold.value.Valid()
    requires from > 0 && from in ready
    ensures Answers(HandleRelease(hold, from, version, to, ready).outs, from)
  {
    var a := HandleRelease(hold, from, version, to, ready);
    assert a.outs[|a.outs| - 1] in a.outs;
  }

  /** Whether some of the messages ends a release of a node. */
  ghost predicate Answers(outs: seq<Out>, from: Node) {
    exists o :: o in outs && (o == To(from, Denied) || (o.ToAll? && o.m.Announce? && o.m.owner != from))
  }

  // -------------------------------------------------------------------------------------------------------- Node

  /** A node's view of an object. `announced`: by the current registry. `frozen`: released, waiting for the answer;
      `releaseOwn`: because the game asked for it. */
  datatype Entry = Entry(owner: Node, version: nat, announced: bool, frozen: bool, releaseOwn: bool)

  /** `pending`: this node asked the registry for the object and has no answer. */
  datatype Replica = Replica(entry: Option<Entry>, pending: bool)

  /** Whether what the registry says about the object is older than what it said before. */
  predicate IsOld(r: Replica, version: nat) {
    r.entry.Some? && r.entry.value.announced && r.entry.value.version != version &&
    !SerialNewer(version, r.entry.value.version)
  }

  /** handle_announce. */
  function TakeAnnounce(r: Replica, owner: Node, version: nat): Replica {
    if IsOld(r, version) then r
    else
      var oldOwner := if r.entry.Some? then r.entry.value.owner else 0;
      var kept := r.entry.Some? && oldOwner == owner;
      Replica(Some(Entry(owner, version, true, kept && r.entry.value.frozen, kept && r.entry.value.releaseOwn)),
              r.pending && oldOwner == owner)
  }

  /** handle_denied. */
  function TakeDenial(r: Replica, local: Node): Replica {
    Replica(if r.entry.Some? && r.entry.value.owner == local && r.entry.value.frozen
            then Some(r.entry.value.(frozen := false, releaseOwn := false)) else r.entry, false)
  }

  /** Whether a transfer the registry asks for is of this node's object, at this version. */
  predicate CanTransfer(r: Replica, local: Node, version: nat) {
    r.entry.Some? && r.entry.value.owner == local && r.entry.value.version == version && !r.entry.value.frozen
  }

  /** handle_transfer. `approved`: the object doesn't refuse. */
  function TakeTransfer(r: Replica, local: Node, version: nat, to: Node, forced: bool, approved: bool)
    : (Replica, seq<ToRegistry>)
  {
    if !CanTransfer(r, local, version) then (r, [])
    else if !forced && !approved then (r, [Refuse(version)])
    else (r.(entry := Some(r.entry.value.(frozen := true))), [Release(version, to)])
  }

  function Take(r: Replica, local: Node, m: FromRegistry, approved: bool): (Replica, seq<ToRegistry>) {
    match m
    case Announce(owner, version) => (TakeAnnounce(r, owner, version), [])
    case Unregister => (r.(entry := None), [])
    case Transfer(version, to, forced) => TakeTransfer(r, local, version, to, forced, approved)
    case Denied => (TakeDenial(r, local), [])
  }

  /** What the game asks for: request_authority, release_authority, assign_authority, unregister_object. */
  datatype Ask = AskRequest | AskRelease(to: Node) | AskAssign(to: Node) | AskDrop

  function TakeAsk(r: Replica, local: Node, a: Ask): (Replica, seq<ToRegistry>) {
    if r.entry.None? then (r, [])
    else
      var e := r.entry.value;
      match a
      case AskRequest => if e.owner == local then (r, []) else (r.(pending := true), [Request])
      case AskRelease(to) =>
        if e.owner != local || e.frozen || to == local then (r, [])
        else (r.(entry := Some(e.(frozen := true, releaseOwn := true))), [Release(e.version, to)])
      case AskAssign(to) => (r.(pending := r.pending || e.owner != to), [Assign(to)])
      case AskDrop => (r, if e.owner == local then [Drop] else [])
  }
}
