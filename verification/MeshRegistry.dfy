/** The registry as it works: its books updated in place, message by message, and what it sends in order. Each handler
    does to the record of its object what `Ownership` says, and nothing to the others. */
module MeshRegistry {
  import opened Frames
  import opened Snapshots
  import opened Ownership
  import opened Registrar
  import NetIds
  import R = Replicas

  lemma InTurn<T>(a: seq<T>, b: seq<T>, c: seq<T>, all: seq<T>)
    requires all == a + b + c
    ensures all == a + (b + c)
  {}

  /** What was sent about an object, in order. */
  function About(sent: seq<(Id, Out)>, id: Id): seq<Out>
    decreases |sent|
  {
    if sent == [] then []
    else
      var last := sent[|sent| - 1];
      About(sent[..|sent| - 1], id) + if last.0 == id then [last.1] else []
  }

  lemma OneTagged(id: Id, o: Out)
    ensures Tagged(id, [o]) == [(id, o)]
  {}

  lemma {:induction false} AboutTagged(sent: seq<(Id, Out)>, id: Id, outs: seq<Out>, k: Id)
    ensures About(sent + Tagged(id, outs), k) == About(sent, k) + if k == id then outs else []
    decreases |outs|
  {
    if outs == [] {
      assert sent + Tagged(id, outs) == sent;
    } else {
      var before, all := outs[..|outs| - 1], sent + Tagged(id, outs);
      AboutTagged(sent, id, before, k);
      assert all[..|all| - 1] == sent + Tagged(id, before);
      assert outs == before + [outs[|outs| - 1]];
    }
  }

  class Registry {
    const local: Node
    var ready: set<Node>
    var departed: set<Node>
    var objects: map<Path, nat>
    var records: map<Id, Listing>
    var ids: map<Path, Id>
    var quarantined: map<Id, nat>
    var next: nat
    var highest: Id
    var settling: bool
    var sent: seq<(Id, Out)>

    ghost function B(): Books
      reads this
    {
      Books(ready, departed, objects, records, ids, quarantined, next, highest, settling)
    }

    /** The record of one object, and what is sent about it. */
    ghost predicate Answered(before: Books, told: seq<(Id, Out)>, id: Id, a: Answer)
      reads this
    {
      && B() == (if id in before.records then Apply(before, id, a) else before)
      && sent == told + Tagged(id, a.outs)
    }

    constructor (local: Node)
      ensures B() == Books({local}, {}, map[], map[], map[], map[], 1, 0, false) && sent == [] && Valid(B())
    {
      this.local, ready, departed, objects := local, {local}, {}, map[];
      records, ids, quarantined, next, highest, settling, sent := map[], map[], map[], 1, 0, false, [];
    }

    /** registry_deny. */
    method SendDenial(node: Node, id: Id)
      modifies this`sent
      ensures sent == old(sent) + Tagged(id, Deny(ready, node))
    {
      if node > 0 && node in ready {
        sent := sent + [(id, To(node, Denied))];
      }
    }

    /** registry_change_owner. */
    method SetOwner(id: Id, owner: Node)
      requires Valid(B()) && id in records
      modifies this`records, this`sent
      ensures Valid(B()) && Answered(old(B()), old(sent), id, ChangeOwner(old(records[id].hold), owner, ready))
    {
      ApplyKeeps(B(), id, ChangeOwner(records[id].hold, owner, ready));
      var h := records[id].hold;
      if h.pendingTo.Some? && h.pendingTo != Some(owner) {
        SendDenial(h.requester, id);
      }
      h := h.(previous := if h.owner == owner then h.version else 0);
      h := h.(owner := owner, version := NextSerial(h.version), pendingTo := None, requester := 0);
      records := records[id := records[id].(hold := h)];
      sent := sent + [(id, ToAll(Announce(owner, h.version)))];
    }

    method CancelTransfer(id: Id)
      requires Valid(B()) && id in records
      modifies this`records
      ensures Valid(B())
      ensures B() == Apply(old(B()), id, Answer(Some(old(records[id].hold).(pendingTo := None, requester := 0)), []))
    {
      ApplyKeeps(B(), id, Answer(Some(records[id].hold.(pendingTo := None, requester := 0)), []));
      records := records[id := records[id].(hold := records[id].hold.(pendingTo := None, requester := 0))];
    }

    /** registry_handle_request. */
    method TakeRequest(from: Node, id: Id)
      requires Valid(B())
      modifies this`records, this`sent
      ensures Valid(B()) && Answered(old(B()), old(sent), id, HandleRequest(old(HoldOf(B(), id)), from, ready))
    {
      if id !in records || records[id].hold.pendingTo.Some? {
        SendDenial(from, id);
        Unchanged(B(), id);
        return;
      }
      var h := records[id].hold;
      if h.owner == from {
        Unchanged(B(), id);
        return;
      }
      if h.owner !in ready {
        SetOwner(id, from);
        return;
      }
      AskOwner(id, from, from, false);
    }

    /** The owner is asked to hand the object over. */
    method AskOwner(id: Id, to: Node, requester: Node, forced: bool)
      requires Valid(B()) && id in records
      modifies this`records, this`sent
      ensures Valid(B())
      ensures (var h := old(records[id].hold);
               Answered(old(B()), old(sent), id, Answer(Some(h.(pendingTo := Some(to), requester := requester)),
                                                        [Out.To(h.owner, Transfer(h.version, to, forced))])))
    {
      var h := records[id].hold;
      ApplyKeeps(B(), id, Answer(Some(h.(pendingTo := Some(to), requester := requester)), []));
      records := records[id := records[id].(hold := h.(pendingTo := Some(to), requester := requester))];
      sent := sent + [(id, Out.To(h.owner, Transfer(h.version, to, forced)))];
    }

    /** registry_handle_assign. */
    method TakeAssign(from: Node, id: Id, target: int)
      requires Valid(B())
      modifies this`records, this`sent
      ensures Valid(B())
      ensures Answered(old(B()), old(sent), id,
                       if target < 0 then Answer(old(HoldOf(B(), id)), Deny(ready, from))
                       else HandleAssign(old(HoldOf(B(), id)), from, target, ready))
    {
      if id !in records || records[id].hold.pendingTo.Some? || target < 0 || (target > 0 && target !in ready) {
        SendDenial(from, id);
        Unchanged(B(), id);
        return;
      }
      var h := records[id].hold;
      if h.owner == target {
        Unchanged(B(), id);
        return;
      }
      if h.owner !in ready {
        SetOwner(id, target);
        return;
      }
      AskOwner(id, target, from, true);
    }

    /** registry_handle_release; `to` below 0 is a refusal. */
    method TakeRelease(from: Node, id: Id, version: nat, to: int)
      requires Valid(B())
      modifies this`records, this`sent
      ensures Valid(B())
      ensures Answered(old(B()), old(sent), id,
                       if to < 0 then HandleRefusal(old(HoldOf(B(), id)), from, version, ready)
                       else HandleRelease(old(HoldOf(B(), id)), from, version, to, ready))
    {
      var current := id in records && records[id].hold.owner == from &&
        (records[id].hold.version == version ||
         (records[id].hold.previous != 0 && records[id].hold.previous == version));
      if !current {
        if to >= 0 {
          SendDenial(from, id);
        }
        Unchanged(B(), id);
        return;
      }
      if to < 0 {
        var requester := records[id].hold.requester;
        CancelTransfer(id);
        SendDenial(requester, id);
        return;
      }
      if to == records[id].hold.owner {
        SendDenial(from, id);
        Unchanged(B(), id);
        return;
      }
      if to > 0 && to !in ready {
        SetOwner(id, 0);
        return;
      }
      SetOwner(id, to);
    }

    /** registry_handle_drop. */
    method TakeDrop(from: Node, id: Id, current: nat)
      requires Valid(B())
      modifies this`records, this`ids, this`quarantined, this`sent
      ensures Valid(B())
      ensures (var a := HandleDrop(old(HoldOf(B(), id)), from);
               var before := old(B());
               B() == (if id in before.records && a.hold.None?
                       then Apply(before, id, a).(quarantined := before.quarantined[id := current]) else before) &&
               sent == old(sent) + Tagged(id, a.outs))
    {
      if id !in records || records[id].hold.owner != from {
        return;
      }
      ApplyKeeps(B(), id, Answer(None, []));
      ids := ids - {records[id].path};
      records := records - {id};
      quarantined := quarantined[id := current];
      sent := sent + [(id, ToAll(Unregister))];
      assert Inverse(B()) by { SameBooks(Apply(old(B()), id, Answer(None, [])), B()); }
    }

    /** What a node that left took part in. */
    method LeaveRecord(node: Node, id: Id)
      requires Valid(B()) && id in records
      modifies this`records, this`sent
      ensures Valid(B()) && Answered(old(B()), old(sent), id, PeerLeft(Some(old(records[id].hold)), node, ready))
    {
      var h := records[id].hold;
      if h.owner == node {
        SetOwner(id, 0);
      } else if h.pendingTo.Some? && (h.pendingTo == Some(node) || h.requester == node) {
        CancelTransfer(id);
        if h.requester != node {
          SendDenial(h.requester, id);
        }
      } else {
        Unchanged(B(), id);
      }
    }

    /** registry_on_peer_left: one record after the other, in the order of their ids. */
    method OnPeerLeft(node: Node)
      requires Valid(B())
      modifies this`records, this`sent
      ensures Valid(B()) && B() == old(B()).(records := records)
      ensures forall id :: Left(old(B()), old(sent), B(), sent, node, id)
    {
      ghost var before, told := B(), sent;
      var rest := records.Keys;
      while rest != {}
        invariant Valid(B()) && B() == before.(records := records) && rest <= records.Keys
        invariant forall id :: id in rest ==>
          HoldOf(B(), id) == HoldOf(before, id) && About(sent, id) == About(told, id)
        invariant forall id :: id !in rest ==> Left(before, told, B(), sent, node, id)
        decreases |rest|
      {
        var id := Lowest(rest);
        ghost var b, s := B(), sent;
        LeaveRecord(node, id);
        LeftOne(before, told, b, s, B(), sent, node, id, rest);
        rest := rest - {id};
      }
    }

    /** registry_check_timeouts: the transfers their owner didn't answer in time (`late`) are cancelled. */
    method CheckTimeouts(late: set<Id>)
      requires Valid(B())
      modifies this`records, this`sent
      ensures Valid(B()) && B() == old(B()).(records := records)
      ensures forall id :: TimedOut(old(B()), old(sent), B(), sent, late, id)
    {
      ghost var before, told := B(), sent;
      var rest := records.Keys;
      while rest != {}
        invariant Valid(B()) && B() == before.(records := records) && records.Keys == before.records.Keys
          && rest <= records.Keys
        invariant forall id :: TimedOut(before, told, B(), sent, late - rest, id)
        decreases |rest|
      {
        var id :| id in rest;
        ghost var b, s := B(), sent;
        if id in late && records[id].hold.pendingTo.Some? {
          CancelLate(id);
          TimedOutOne(before, told, b, s, B(), sent, late, rest, id);
        } else {
          NotTimedOut(before, told, b, s, late, rest, id);
        }
        rest := rest - {id};
      }
      assert late - rest == late;
    }

    method CancelLate(id: Id)
      requires Valid(B()) && id in records && records[id].hold.pendingTo.Some?
      modifies this`records, this`sent
      ensures Valid(B()) && B() == old(B()).(records := records) && records.Keys == old(records.Keys)
      ensures Answered(old(B()), old(sent), id, TimeOut(Some(old(records[id].hold)), ready))
    {
      var requester := records[id].hold.requester;
      CancelTransfer(id);
      SendDenial(requester, id);
    }

    /** registry_handle_claim. `current`, `quarantine`: the frame, and for how many of them an id is kept. None when
        there are too many objects. */
    method TakeClaim(from: Node, path: Path, owner: Node, hash: nat, current: nat, quarantine: nat)
      returns (claimed: Option<Id>)
      requires Valid(B()) && path != ""
      modifies this`records, this`ids, this`quarantined, this`next, this`sent
      ensures Valid(B())
      ensures path in old(ids) ==> Reclaimed(old(B()), old(sent), B(), sent, old(ids)[path], from, owner, hash)
      ensures path !in old(ids) ==> claimed.None? == IsFull(old(B()), current, quarantine)
      ensures claimed.None? ==>
        B() == old(B()).(quarantined := Kept(old(B()), current, quarantine)) && sent == old(sent)
      ensures path !in old(ids) && claimed.Some? ==>
                Claimed(old(B()), old(sent), B(), sent, claimed.value, from, path, owner, hash, current, quarantine)
    {
      if path in ids {
        claimed := Some(ids[path]);
        ClaimAgain(from, ids[path], owner, hash);
      } else {
        claimed := FreeId(current, quarantine);
        if claimed.Some? {
          AddRecord(claimed.value, from, path, owner, hash);
        }
      }
    }

    /** The id of a new object, out of quarantine; none if there are too many. */
    method FreeId(current: nat, quarantine: nat) returns (free: Option<Id>)
      requires Valid(B())
      modifies this`quarantined, this`next
      ensures Valid(B()) && free.None? == IsFull(old(B()), current, quarantine)
      ensures free.None? ==> B() == old(B()).(quarantined := Kept(old(B()), current, quarantine))
      ensures free.Some? ==> IsFree(old(B()), free.value, current, quarantine)
      ensures free.Some? ==> B() == WithoutId(old(B()), free.value, current, quarantine)
    {
      ghost var before := B();
      if |records| + |quarantined| >= NetIds.MAX_IDS {
        quarantined := NetIds.PruneQuarantine(quarantined, current, quarantine);
      }
      SameBooks(before, B());
      if |records| + |quarantined| >= NetIds.MAX_IDS {
        return None;
      }
      assert |records.Keys| == |records|;
      var id := NetIds.FindFree(records.Keys, quarantined, current, quarantine, next);
      quarantined, next := quarantined - {id}, NetIds.After(id);
      free := Some(id);
      SameBooks(before, B());
    }

    /** The part of registry_handle_claim for a path the books don't have. */
    method AddRecord(id: Id, from: Node, path: Path, owner: Node, hash: nat)
      requires Valid(B()) && path !in ids && id !in records && id != 0
      modifies this`records, this`ids, this`sent
      ensures Valid(B()) && Added(old(B()), old(sent), B(), sent, id, from, path, owner, hash)
    {
      ghost var before := B();
      var first := if owner > 0 then owner else from;
      if first !in ready && first in departed {
        first := 0;
      }
      InsertRecord(id, path, first, hash);
      NewRecordKeeps(before, B(), id);
      sent := sent + [(id, ToAll(Announce(first, 1)))];
      OneTagged(id, ToAll(Announce(first, 1)));
    }

    method InsertRecord(id: Id, path: Path, owner: Node, hash: nat)
      modifies this`records, this`ids
      ensures records == old(records)[id := Listing(path, Hold(owner, 1, 0, None, 0), HashOf(old(B()), path, hash))]
      ensures ids == old(ids)[path := id]
    {
      var listed := if path in objects then objects[path] else hash;
      records := records[id := Listing(path, Hold(owner, 1, 0, None, 0), listed)];
      ids := ids[path := id];
    }

    /** The part of registry_handle_claim for a path that is registered: its entry goes to the claimant, or to every
        node when its hash has to be corrected. */
    method ClaimAgain(from: Node, id: Id, owner: Node, hash: nat)
      requires Valid(B()) && id in records
      modifies this`records, this`sent
      ensures Valid(B()) && Reclaimed(old(B()), old(sent), B(), sent, id, from, owner, hash)
    {
      ghost var before := B();
      var reference := if records[id].path in objects then objects[records[id].path] else records[id].hash;
      if reference != records[id].hash {
        records := records[id := records[id].(hash := reference)];
        HashKeeps(before, B(), id, reference);
        SetOwner(id, records[id].hold.owner);
        return;
      }
      sent := sent + [(id, Out.To(from, Announce(records[id].hold.owner, records[id].hold.version)))];
      Unchanged(B(), id);
    }

    /** registry_take_over: from the view of this node. */
    method StartTakeOver(v: R.View)
      requires Valid(B()) && R.Valid(v) && R.Versioned(v) && 0 !in v.entries
      requires forall id :: id in v.entries ==> v.entries[id].version < U32
      modifies this`records, this`ids, this`quarantined, this`highest, this`settling
      ensures Valid(B()) && Heard(B())
      ensures B() == TakeOver(old(B()), v).(highest := highest) && old(highest) <= highest
      ensures highest == old(highest) || highest in v.entries
    {
      TakeOverKeeps(B(), v);
      ghost var before := B();
      records, ids, quarantined, settling := map[], map[], map[], true;
      CopyEntries(v);
      assert records == TakeOver(before, v).records;
      SameBooks(TakeOver(before, v), B());
    }

    method CopyEntries(v: R.View)
      requires records == map[] && ids == map[] && R.Valid(v)
      modifies this`records, this`ids, this`highest
      ensures records == Copies(objects, v, v.entries.Keys) && ids == v.ids
      ensures old(highest) <= highest && (forall id :: id in v.entries ==> id <= highest)
      ensures highest == old(highest) || highest in v.entries
    {
      var rest, done: set<Id> := v.entries.Keys, {};
      while rest != {}
        invariant rest + done == v.entries.Keys && Copied(B(), v, done)
        invariant old(highest) <= highest && (highest == old(highest) || highest in v.entries)
        decreases |rest|
      {
        var id :| id in rest;
        CopyNext(v, done, id);
        rest, done := rest - {id}, done + {id};
      }
      assert done == v.entries.Keys;
      AllCopied(v);
    }

    method CopyNext(v: R.View, ghost done: set<Id>, id: Id)
      requires R.Valid(v) && id in v.entries && Copied(B(), v, done)
      modifies this`records, this`ids, this`highest
      ensures Copied(B(), v, done + {id}) && old(highest) <= highest && (highest == old(highest) || highest == id)
    {
      ghost var before := B();
      CopyEntry(id, v.entries[id]);
      CopiedOne(before, B(), v, done, id);
    }

    method CopyEntry(id: Id, e: R.NodeEntry)
      modifies this`records, this`ids, this`highest
      ensures records == old(records)[id := CopyOf(objects, e)] && ids == old(ids)[e.path := id]
      ensures highest == R.Max(old(highest), id)
    {
      var hash := if e.path in objects then objects[e.path] else e.hash;
      records := records[id := Listing(e.path, Hold(e.owner, e.version, 0, None, 0), hash)];
      ids := ids[e.path := id];
      highest := R.Max(highest, id);
    }

    /** handle_registry_report, while the registry takes over: an object of it. */
    method TakeTold(t: Told) returns (sound: bool, taken: bool)
      requires Valid(B())
      modifies this`records, this`ids, this`highest, this`sent
      ensures Valid(B()) && B() == Merge(old(B()), t)
      ensures sound == !IsMalformed(t) && taken == (sound && Replaces(old(B()), t))
      ensures sent == old(sent) + if taken then Replaced(old(B()), t) else []
    {
      MergeKeeps(B(), t);
      if t.id == 0 || t.id >= NetIds.U16 || t.path == "" || t.owner < 0 || t.version == 0 || t.version >= U32 {
        return false, false;
      }
      if t.id in records && !SerialNewer(t.version, records[t.id].hold.version) {
        return true, false;
      }
      if t.path in ids && ids[t.path] != t.id {
        if !SerialNewer(t.version, records[ids[t.path]].hold.version) {
          return true, false;
        }
      }
      assert Replaces(B(), t);
      TellReplaced(t);
      PutTold(t);
      sound, taken := true, true;
    }

    /** handle_registry_report, after the takeover: a newer record is announced as it comes, without its owner if it
        left, and its id isn't given to another object. */
    method TakeLateTold(t: Told) returns (sound: bool)
      requires Valid(B())
      modifies this`records, this`ids, this`highest, this`next, this`sent
      ensures Valid(B()) && sound == !IsMalformed(t)
      ensures B() == MergeLate(old(B()), t).0 && sent == old(sent) + MergeLate(old(B()), t).1
    {
      var taken;
      sound, taken := TakeTold(t);
      if taken {
        OthersKept(old(B()), t);
        ghost var denied := Replaced(old(B()), t);
        AnnounceTold(t);
        InTurn(old(sent), denied, sent[|old(sent)| + |denied|..], sent);
      }
    }

    /** handle_registry_report, after the takeover. A report that is `whole`, and the `last` one of its node, is
        answered with what the books have by then. */
    method TakeLateReport(from: Node, r: Report, last: bool) returns (whole: bool)
      requires Valid(B()) && highest < NetIds.U16 && r.highest < NetIds.U16
      modifies this`records, this`ids, this`highest, this`next, this`sent
      ensures Valid(B()) && whole == (Sound(r.objects) == r.objects)
      ensures B() == MergeLateAll(LateHeader(old(B()), r.highest), Sound(r.objects)).0
      ensures BackAll(old(sent) + MergeLateAll(LateHeader(old(B()), r.highest), Sound(r.objects)).1, B(), sent, from,
                      if whole && last then {} else records.Keys)
    {
      ghost var before := LateHeader(B(), r.highest);
      highest := R.Max(highest, r.highest);
      next := if highest >= next then NetIds.After(highest) else next;
      NamesKeptAll(old(B()), B());
      whole := TakeLateObjects(r.objects);
      NothingBack(B(), sent, from);
      assert BackAll(sent, B(), sent, from, records.Keys);
      if whole && last {
        AnnounceBack(from);
      }
    }

    method TakeLateObjects(ts: seq<Told>) returns (whole: bool)
      requires Valid(B())
      modifies this`records, this`ids, this`highest, this`next, this`sent
      ensures Valid(B()) && whole == (Sound(ts) == ts)
      ensures B() == MergeLateAll(old(B()), Sound(ts)).0 && sent == old(sent) + MergeLateAll(old(B()), Sound(ts)).1
    {
      ghost var before, told := B(), sent;
      var i := 0;
      whole := true;
      while i < |ts| && whole
        invariant 0 <= i <= |ts| && Valid(B())
        invariant whole ==> i <= |Sound(ts)| && LateTaken(before, told, B(), sent, ts[..i])
        invariant !whole ==> Sound(ts) != ts && LateTaken(before, told, B(), sent, Sound(ts))
      {
        assert i < |Sound(ts)| ==> Sound(ts)[i] in Sound(ts);
        ghost var b, s := B(), sent;
        whole := TakeLateTold(ts[i]);
        if whole {
          OneMoreLate(before, told, b, s, ts, i);
        } else {
          assert MergeLate(b, ts[i]) == (b, []) && s + [] == s;
          assert ts[..i] == Sound(ts);
        }
        i := i + 1;
      }
      assert whole ==> ts[..i] == ts && Sound(ts) == ts;
    }

    /** The sender of a late report gets every record, in the order of the ids. */
    method AnnounceBack(to: Node)
      requires Valid(B())
      modifies this`sent
      ensures BackAll(old(sent), B(), sent, to, {})
    {
      ghost var told, b := sent, B();
      var rest := records.Keys;
      NothingBack(b, sent, to);
      while rest != {}
        invariant rest <= records.Keys && B() == b && BackAll(told, b, sent, to, rest)
        decreases |rest|
      {
        var id := Lowest(rest);
        ghost var s := sent;
        sent := sent + [(id, Out.To(to, Announce(records[id].hold.owner, records[id].hold.version)))];
        OneBack(told, b, s, sent, to, rest, id);
        rest := rest - {id};
      }
    }

    method AnnounceTold(t: Told)
      requires Valid(B()) && t.id in records && t.id < NetIds.U16 && t.owner >= 0
      modifies this`records, this`next, this`sent
      ensures (var a := ToldAgain(old(B()), t);
               && B() == Apply(old(B()), t.id, a).(next := if t.id >= old(next) then NetIds.After(t.id) else old(next))
               && sent == old(sent) + Tagged(t.id, a.outs))
      ensures Valid(B())
    {
      SetOwner(t.id, if t.owner > 0 && t.owner !in ready then 0 else t.owner);
      ghost var told := B();
      next := if t.id >= next then NetIds.After(t.id) else next;
      NamesKept(told, B());
    }

    method TellReplaced(t: Told)
      requires Valid(B())
      modifies this`sent
      ensures sent == old(sent) + Replaced(old(B()), t)
    {
      if t.path in ids && ids[t.path] != t.id && records[ids[t.path]].hold.pendingTo.Some? {
        SendDenial(records[ids[t.path]].hold.requester, ids[t.path]);
      }
      if t.id in records && records[t.id].hold.pendingTo.Some? {
        SendDenial(records[t.id].hold.requester, t.id);
      }
    }

    method PutTold(t: Told)
      requires Valid(B()) && !IsMalformed(t) && Replaces(B(), t)
      modifies this`records, this`ids, this`highest
      ensures B() == Merge(old(B()), t)
    {
      if t.path in ids && ids[t.path] != t.id {
        records := records - {ids[t.path]};
      }
      assert records == if t.path in old(ids) then old(records) - ({old(ids)[t.path]} - {t.id}) else old(records);
      if t.id in records {
        ids := ids - {records[t.id].path};
      }
      records := records[t.id := Listing(t.path, Hold(t.owner, t.version, 0, None, 0),
                                         if t.path in objects then objects[t.path] else t.hash)];
      ids := ids[t.path := t.id];
      highest := R.Max(highest, t.id);
    }

    method TakeReport(r: Report)
      requires Valid(B())
      modifies this`records, this`ids, this`highest, this`sent
      ensures Valid(B()) && B() == MergeAll(old(B()).(highest := R.Max(old(highest), r.highest)), Sound(r.objects))
    {
      highest := R.Max(highest, r.highest);
      ghost var before := B();
      assert Inverse(B()) by { SameBooks(old(B()), B()); }
      var i, sound := 0, true;
      while i < |r.objects| && sound
        invariant 0 <= i <= |r.objects| && Valid(B())
        invariant sound ==> B() == MergeAll(before, r.objects[..i]) && i <= |Sound(r.objects)|
        invariant !sound ==> B() == MergeAll(before, Sound(r.objects))
      {
        assert r.objects[..i + 1][..i] == r.objects[..i];
        assert i < |Sound(r.objects)| ==> Sound(r.objects)[i] in Sound(r.objects);
        var taken;
        sound, taken := TakeTold(r.objects[i]);
        assert !sound ==> r.objects[..i] == Sound(r.objects);
        i := i + 1;
      }
      assert sound ==> r.objects[..i] == Sound(r.objects);
    }

    /** registry_finish_take_over: every record is announced again, in the order of the ids. */
    method FinishTakeOver()
      requires Valid(B()) && highest < NetIds.U16
      modifies this`records, this`next, this`settling, this`sent
      ensures Valid(B()) && B() == Finish(old(B()))
      ensures forall id :: id in records ==> Finished(old(B()), old(sent), B(), sent, id)
    {
      ghost var before, told := B(), sent;
      settling, next := false, NetIds.After(highest);
      SameBooks(before, B());
      ghost var started := B();
      AnnounceAll();
      forall id | id in records ensures Finished(before, told, B(), sent, id) {
        assert Finished(started, told, B(), sent, id);
      }
      FinishedIsFinish(before, told, B(), sent);
    }

    method AnnounceAll()
      requires Valid(B())
      modifies this`records, this`sent
      ensures Valid(B()) && B() == old(B()).(records := records) && records.Keys == old(records.Keys)
      ensures forall id :: id in records ==> Finished(old(B()), old(sent), B(), sent, id)
    {
      ghost var before, told := B(), sent;
      var rest := records.Keys;
      while rest != {}
        invariant Announcing(before, told, B(), sent, rest)
        decreases |rest|
      {
        var id := Lowest(rest);
        ghost var b, s := B(), sent;
        AnnounceOne(id);
        AnnouncingOne(before, told, b, s, B(), sent, id, rest);
        rest := rest - {id};
      }
    }

    method AnnounceOne(id: Id)
      requires Valid(B()) && id in records
      modifies this`records, this`sent
      ensures Valid(B()) && Answered(old(B()), old(sent), id, AnnouncedAgain(old(B()), old(records[id].hold)))
    {
      var owner := records[id].hold.owner;
      if owner > 0 && owner !in ready {
        owner := 0;
      }
      SetOwner(id, owner);
    }
  }

  /** What was sent about an object is what was before, and its record to one node, unless that's still to be sent. */
  ghost predicate Back(told: seq<(Id, Out)>, b: Books, sent: seq<(Id, Out)>, to: Node, rest: set<Id>, id: Id) {
    About(sent, id) == About(told, id) +
      if id in b.records && id !in rest
      then [Out.To(to, Announce(b.records[id].hold.owner, b.records[id].hold.version))]
      else []
  }

  ghost predicate BackAll(told: seq<(Id, Out)>, b: Books, sent: seq<(Id, Out)>, to: Node, rest: set<Id>) {
    forall id :: Back(told, b, sent, to, rest, id)
  }

  lemma NothingBack(b: Books, sent: seq<(Id, Out)>, to: Node)
    ensures BackAll(sent, b, sent, to, b.records.Keys)
  {}

  lemma OneBack(told: seq<(Id, Out)>, b: Books, s: seq<(Id, Out)>, s': seq<(Id, Out)>, to: Node, rest: set<Id>, id: Id)
    requires rest <= b.records.Keys && id in rest && BackAll(told, b, s, to, rest)
    requires s' == s + [(id, Out.To(to, Announce(b.records[id].hold.owner, b.records[id].hold.version)))]
    ensures BackAll(told, b, s', to, rest - {id})
  {
    var o := Out.To(to, Announce(b.records[id].hold.owner, b.records[id].hold.version));
    OneTagged(id, o);
    forall k ensures Back(told, b, s', to, rest - {id}, k) {
      assert Back(told, b, s, to, rest, k);
      AboutTagged(s, id, [o], k);
    }
  }

  ghost predicate LateTaken(before: Books, told: seq<(Id, Out)>, b: Books, sent: seq<(Id, Out)>, ts: seq<Told>) {
    b == MergeLateAll(before, ts).0 && sent == told + MergeLateAll(before, ts).1
  }

  lemma OneMoreLate(before: Books, told: seq<(Id, Out)>, b: Books, s: seq<(Id, Out)>, ts: seq<Told>, i: nat)
    requires i < |ts| && LateTaken(before, told, b, s, ts[..i])
    ensures LateTaken(before, told, MergeLate(b, ts[i]).0, s + MergeLate(b, ts[i]).1, ts[..i + 1])
  {
    assert ts[..i + 1][..i] == ts[..i];
    InTurn(told, MergeLateAll(before, ts[..i]).1, MergeLate(b, ts[i]).1, s + MergeLate(b, ts[i]).1);
  }

  lemma NamesKeptAll(b: Books, b': Books)
    requires Valid(b) && b' == b.(highest := b'.highest, next := b'.next) && b'.next < NetIds.U16
    ensures Valid(b')
  {
    forall id | id in b'.records ensures Named(b', id) {
      assert Named(b, id);
    }
  }

  function Copies(objects: map<Path, nat>, v: R.View, done: set<Id>): map<Id, Listing> {
    map id | id in v.entries && id in done :: CopyOf(objects, v.entries[id])
  }

  function NamesOf(v: R.View, done: set<Id>): map<Path, Id> {
    map path | path in v.ids && v.ids[path] in done :: v.ids[path]
  }

  /** The books have the copies of some of the entries, and no others. */
  ghost predicate Copied(b: Books, v: R.View, done: set<Id>) {
    b.records == Copies(b.objects, v, done) && b.ids == NamesOf(v, done) && forall id :: id in done ==> id <= b.highest
  }

  lemma CopiedOne(b: Books, b': Books, v: R.View, done: set<Id>, id: Id)
    requires R.Valid(v) && id in v.entries && Copied(b, v, done) && b'.objects == b.objects
    requires b'.records == b.records[id := CopyOf(b.objects, v.entries[id])]
      && b'.ids == b.ids[v.entries[id].path := id]
    requires b'.highest == R.Max(b.highest, id)
    ensures Copied(b', v, done + {id})
  {
    OneMoreCopied(b.objects, v, done, id);
  }

  lemma AllCopied(v: R.View)
    requires R.Valid(v)
    ensures NamesOf(v, v.entries.Keys) == v.ids
  {}

  lemma OneMoreCopied(objects: map<Path, nat>, v: R.View, done: set<Id>, id: Id)
    requires R.Valid(v) && id in v.entries
    ensures Copies(objects, v, done + {id}) == Copies(objects, v, done)[id := CopyOf(objects, v.entries[id])]
    ensures NamesOf(v, done + {id}) == NamesOf(v, done)[v.entries[id].path := id]
  {
    assert R.Named(v, id);
  }

  ghost predicate Finished(before: Books, told: seq<(Id, Out)>, b: Books, sent: seq<(Id, Out)>, id: Id) {
    && Valid(before) && id in before.records && id in b.records
    && (var a := AnnouncedAgain(before, before.records[id].hold);
        b.records[id] == before.records[id].(hold := a.hold.value) && About(sent, id) == About(told, id) + a.outs)
  }

  /** The records that weren't reached are as they were. */
  ghost predicate Remain(before: Books, told: seq<(Id, Out)>, b: Books, sent: seq<(Id, Out)>, rest: set<Id>) {
    rest <= b.records.Keys && rest <= before.records.Keys &&
    forall id :: id in rest ==> b.records[id] == before.records[id] && About(sent, id) == About(told, id)
  }

  lemma FinishedIsFinish(before: Books, told: seq<(Id, Out)>, b: Books, sent: seq<(Id, Out)>)
    requires Valid(before) && before.highest < NetIds.U16 && b.records.Keys == before.records.Keys
    requires b == before.(records := b.records, next := NetIds.After(before.highest), settling := false)
    requires forall id :: id in b.records ==> Finished(before, told, b, sent, id)
    ensures b == Finish(before)
  {
    assert before.highest % NetIds.U16 == before.highest;
    forall id | id in b.records ensures b.records[id] == Finish(before).records[id] {
      assert Finished(before, told, b, sent, id);
    }
    assert b.records == Finish(before).records;
  }

  /** The records out of `rest` were announced again, and the others weren't yet. */
  ghost predicate Announcing(before: Books, told: seq<(Id, Out)>, b: Books, sent: seq<(Id, Out)>, rest: set<Id>) {
    && Valid(before) && Valid(b) && b == before.(records := b.records) && b.records.Keys == before.records.Keys
    && Remain(before, told, b, sent, rest)
    && forall id :: id in b.records && id !in rest ==> Finished(before, told, b, sent, id)
  }

  lemma AnnouncingOne(before: Books, told: seq<(Id, Out)>, b: Books, s: seq<(Id, Out)>, b': Books, s': seq<(Id, Out)>,
                      id: Id, rest: set<Id>)
    requires Announcing(before, told, b, s, rest) && id in rest && Valid(b')
    requires var a := AnnouncedAgain(b, b.records[id].hold); b' == Apply(b, id, a) && s' == s + Tagged(id, a.outs)
    ensures Announcing(before, told, b', s', rest - {id})
  {
    FinishedOne(before, told, b, s, b', s', id, rest);
  }

  lemma FinishedOne(before: Books, told: seq<(Id, Out)>, b: Books, s: seq<(Id, Out)>, b': Books, s': seq<(Id, Out)>,
                    id: Id, rest: set<Id>)
    requires Valid(before) && Valid(b) && b.ready == before.ready && b.records.Keys == before.records.Keys && id in rest
    requires Remain(before, told, b, s, rest)
    requires forall k :: k in b.records && k !in rest ==> Finished(before, told, b, s, k)
    requires var a := AnnouncedAgain(b, b.records[id].hold); b' == Apply(b, id, a) && s' == s + Tagged(id, a.outs)
    ensures b'.records.Keys == before.records.Keys && b' == b.(records := b'.records)
    ensures Remain(before, told, b', s', rest - {id})
    ensures forall k :: k in b'.records && k !in rest - {id} ==> Finished(before, told, b', s', k)
  {
    var outs := AnnouncedAgain(before, before.records[id].hold).outs;
    AboutOthers(s, s', id, outs);
    forall k | k in b'.records && k !in rest - {id} ensures Finished(before, told, b', s', k) {
      if k == id {
        AboutTagged(s, id, outs, id);
      } else {
        assert Finished(before, told, b, s, k);
      }
    }
  }

  lemma AboutOthers(s: seq<(Id, Out)>, s': seq<(Id, Out)>, id: Id, outs: seq<Out>)
    requires s' == s + Tagged(id, outs)
    ensures forall k :: k != id ==> About(s', k) == About(s, k)
  {
    forall k | k != id ensures About(s', k) == About(s, k) {
      AboutTagged(s, id, outs, k);
    }
  }

  ghost predicate TimedOut(before: Books, told: seq<(Id, Out)>, b: Books, sent: seq<(Id, Out)>, done: set<Id>, id: Id) {
    var a := if id in done then TimeOut(HoldOf(before, id), before.ready) else Answer(HoldOf(before, id), []);
    HoldOf(b, id) == a.hold && About(sent, id) == About(told, id) + a.outs
  }

  lemma TimedOutOne(before: Books, told: seq<(Id, Out)>, b: Books, s: seq<(Id, Out)>, b': Books, s': seq<(Id, Out)>,
                    late: set<Id>, rest: set<Id>, id: Id)
    requires Valid(b) && b.ready == before.ready && rest <= b.records.Keys && id in rest && id in late
    requires forall k :: TimedOut(before, told, b, s, late - rest, k)
    requires b' == Apply(b, id, TimeOut(Some(b.records[id].hold), b.ready))
    requires s' == s + Tagged(id, TimeOut(Some(b.records[id].hold), b.ready).outs)
    ensures forall k :: TimedOut(before, told, b', s', late - (rest - {id}), k)
  {
    var a := TimeOut(Some(b.records[id].hold), b.ready);
    ApplyKeeps(b, id, a);
    forall k ensures TimedOut(before, told, b', s', late - (rest - {id}), k) {
      assert TimedOut(before, told, b, s, late - rest, k);
      AboutTagged(s, id, a.outs, k);
    }
  }

  lemma NotTimedOut(before: Books, told: seq<(Id, Out)>, b: Books, s: seq<(Id, Out)>, late: set<Id>, rest: set<Id>,
                    id: Id)
    requires rest <= b.records.Keys && id in rest && (id !in late || b.records[id].hold.pendingTo.None?)
    requires forall k :: TimedOut(before, told, b, s, late - rest, k)
    ensures forall k :: TimedOut(before, told, b, s, late - (rest - {id}), k)
  {
    forall k ensures TimedOut(before, told, b, s, late - (rest - {id}), k) {
      assert TimedOut(before, told, b, s, late - rest, k);
    }
  }

  /** What stays in quarantine when an id is asked for. */
  function Kept(b: Books, current: nat, quarantine: nat): map<Id, nat> {
    if |b.records| + |b.quarantined| >= NetIds.MAX_IDS then NetIds.Pruned(b.quarantined, current, quarantine)
    else b.quarantined
  }

  predicate IsFull(b: Books, current: nat, quarantine: nat) {
    |b.records| + |Kept(b, current, quarantine)| >= NetIds.MAX_IDS
  }

  /** The first id, from the next one to try, that no object has and isn't in quarantine. */
  ghost predicate IsFree(b: Books, id: Id, current: nat, quarantine: nat) {
    0 < id < NetIds.U16
      && NetIds.FoundFirst(b.records.Keys, Kept(b, current, quarantine), current, quarantine, b.next, id)
  }

  /** A new record, announced to everyone. */
  ghost predicate Added(before: Books, told: seq<(Id, Out)>, b: Books, sent: seq<(Id, Out)>, id: Id, from: Node,
                        path: Path, owner: Node, hash: nat) {
    var a := HandleClaim(None, from, owner, before.ready, before.departed, false);
    && b == before.(records := before.records[id := Listing(path, a.hold.value, HashOf(before, path, hash))],
                    ids := before.ids[path := id])
    && sent == told + Tagged(id, a.outs)
  }

  /** A path that was claimed for the first time has the first free id, and is announced to everyone. */
  ghost predicate Claimed(before: Books, told: seq<(Id, Out)>, b: Books, sent: seq<(Id, Out)>, id: Id, from: Node,
                          path: Path, owner: Node, hash: nat, current: nat, quarantine: nat) {
    && IsFree(before, id, current, quarantine)
    && Added(WithoutId(before, id, current, quarantine), told, b, sent, id, from, path, owner, hash)
  }

  /** An id leaves the quarantine to be given, and the search goes on after it next time. */
  function WithoutId(b: Books, id: Id, current: nat, quarantine: nat): Books
    requires id < NetIds.U16
  {
    b.(quarantined := Kept(b, current, quarantine) - {id}, next := NetIds.After(id))
  }

  /** A path that was claimed again. */
  ghost predicate Reclaimed(before: Books, told: seq<(Id, Out)>, b: Books, sent: seq<(Id, Out)>, id: Id, from: Node,
                            owner: Node, hash: nat) {
    id in before.records && before.records[id].hold.Valid() && (
      var r := before.records[id];
      var reference := HashOf(before, r.path, r.hash);
      var a := HandleClaim(Some(r.hold), from, owner, before.ready, before.departed, reference != r.hash);
      && b == before.(records := before.records[id := r.(hold := a.hold.value, hash := reference)])
      && sent == told + Tagged(id, a.outs))
  }

  lemma HashKeeps(b: Books, b': Books, id: Id, hash: nat)
    requires Valid(b) && id in b.records && b' == b.(records := b.records[id := b.records[id].(hash := hash)])
    ensures Valid(b')
  {
    forall k | k in b'.records ensures Named(b', k) {
      assert Named(b, k);
    }
  }

  lemma NewRecordKeeps(b: Books, b': Books, id: Id)
    requires Valid(b) && id !in b.records && id != 0 && id in b'.records && b'.records[id].path !in b.ids
    requires b'.records == b.records[id := b'.records[id]] && b'.ids == b.ids[b'.records[id].path := id]
    requires b'.next == b.next && b'.records[id].hold.Valid()
    ensures Valid(b')
  {
    forall k | k in b'.records ensures Named(b', k) {
      if k != id { assert Named(b, k); }
    }
  }

  /** An object's record and messages, once a node left. */
  ghost predicate Left(before: Books, told: seq<(Id, Out)>, b: Books, sent: seq<(Id, Out)>, node: Node, id: Id) {
    var hold := HoldOf(before, id);
    (hold.Some? ==> hold.value.Valid()) && (
      var a := PeerLeft(hold, node, before.ready);
      HoldOf(b, id) == a.hold && About(sent, id) == About(told, id) + a.outs)
  }

  lemma LeftOne(before: Books, told: seq<(Id, Out)>, b: Books, s: seq<(Id, Out)>, b': Books, s': seq<(Id, Out)>,
                node: Node, id: Id, rest: set<Id>)
    requires Valid(before) && Valid(b) && Valid(b') && b == before.(records := b.records) && rest <= b.records.Keys
      && id in rest
    requires forall k :: k in rest ==> HoldOf(b, k) == HoldOf(before, k) && About(s, k) == About(told, k)
    requires forall k :: k !in rest ==> Left(before, told, b, s, node, k)
    requires b' == Apply(b, id, PeerLeft(Some(b.records[id].hold), node, b.ready))
    requires s' == s + Tagged(id, PeerLeft(Some(b.records[id].hold), node, b.ready).outs)
    ensures b' == before.(records := b'.records) && rest - {id} <= b'.records.Keys
    ensures forall k :: k in rest - {id} ==> HoldOf(b', k) == HoldOf(before, k) && About(s', k) == About(told, k)
    ensures forall k :: k !in rest - {id} ==> Left(before, told, b', s', node, k)
  {
    var a := PeerLeft(Some(b.records[id].hold), node, b.ready);
    ApplyKeeps(b, id, a);
    forall k ensures About(s', k) == About(s, k) + if k == id then a.outs else [] {
      AboutTagged(s, id, a.outs, k);
    }
    forall k | k !in rest - {id} ensures Left(before, told, b', s', node, k) {
      if k != id { assert Left(before, told, b, s, node, k); }
    }
  }

  lemma Unchanged(b: Books, id: Id)
    ensures id in b.records ==> Apply(b, id, Answer(Some(b.records[id].hold), [])) == b
    ensures id in b.records ==> forall outs :: Apply(b, id, Answer(Some(b.records[id].hold), outs)) == b
  {
    if id in b.records {
      assert b.records[id := b.records[id].(hold := b.records[id].hold)] == b.records;
    }
  }

  lemma SameBooks(b: Books, b': Books)
    requires Inverse(b) && b'.records == b.records && b'.ids == b.ids
    ensures Inverse(b')
  {
    forall id | id in b'.records ensures Named(b', id) {
      assert Named(b, id);
    }
  }

  method Lowest(s: set<Id>) returns (id: Id)
    requires s != {}
    ensures id in s && forall k :: k in s ==> id <= k
  {
    id :| id in s;
    var rest := s - {id};
    while rest != {}
      invariant rest <= s && id in s && forall k :: k in s && k !in rest ==> id <= k
      decreases |rest|
    {
      var k :| k in rest;
      if k < id {
        id := k;
      }
      rest := rest - {k};
    }
  }
}
