/** A node's view of the objects of a mesh: its entries by net id, and the id of each path. What the registry says of
    one object is `Ownership.Take`; this module is about all of them at once, and about what names what. */
module Replicas {
  import opened Frames
  import opened Snapshots
  import opened Ownership

  /** A path; the empty one names nothing. */
  type Path = string

  /** `epoch`: the registry that last announced it, counted from the first one. `hash`: of the variables and codecs the
      registry knows. `bound`: the local object with the path is synchronized through it. */
  datatype NodeEntry = NodeEntry(path: Path, owner: Node, version: nat, epoch: nat, hash: nat, bound: bool,
                                 frozen: bool, releaseOwn: bool)

  /** `objects`: the local objects, by path, with the hash of their variables and codecs. `claims`: the paths
      claimed. */
  datatype View = View(local: Node, epoch: nat, entries: map<Id, NodeEntry>, ids: map<Path, Id>,
                       objects: map<Path, nat>, pending: set<Id>, highest: Id, claims: seq<Path>)

  /** The ids and the paths name each other. */
  ghost predicate Inverse(v: View) {
    && (forall id :: id in v.entries ==> Named(v, id))
    && (forall path :: path in v.ids ==> v.ids[path] in v.entries && v.entries[v.ids[path]].path == path)
  }

  predicate Named(v: View, id: Id)
    requires id in v.entries
  {
    v.entries[id].path in v.ids && v.ids[v.entries[id].path] == id
  }

  /** An entry is bound only to the local object of its path. */
  ghost predicate BoundToLocal(v: View) {
    forall id :: id in v.entries && v.entries[id].bound ==> v.entries[id].path in v.objects
  }

  ghost predicate Valid(v: View) {
    Inverse(v) && BoundToLocal(v)
  }

  /** Between two messages every entry has the version the registry gave it. */
  ghost predicate Versioned(v: View) {
    forall id :: id in v.entries ==> v.entries[id].version != 0
  }

  /** Each local object is bound to at most one entry. */
  lemma BoundOnce(v: View, id: Id, other: Id)
    requires Valid(v) && id in v.entries && other in v.entries && v.entries[id].bound && v.entries[other].bound
    requires v.entries[id].path == v.entries[other].path
    ensures id == other
  {
    assert Named(v, id) && Named(v, other);
  }

  /** What this node knows of an object, as `Ownership` has it. */
  function ReplicaOf(v: View, id: Id): Replica {
    Replica(if id in v.entries
            then Some(Entry(v.entries[id].owner, v.entries[id].version, v.entries[id].epoch == v.epoch,
                            v.entries[id].frozen, v.entries[id].releaseOwn))
            else None,
            id in v.pending)
  }

  // ----------------------------------------------------------------------------------------------- Announcements

  datatype Announcement = Announcement(id: Id, path: Path, owner: int, version: nat, hash: nat)

  predicate IsMalformed(a: Announcement) {
    a.id == 0 || a.path == "" || a.owner < 0 || a.version == 0
  }

  predicate IsOldNews(v: View, a: Announcement) {
    IsOld(ReplicaOf(v, a.id), a.version)
  }

  /** The entry another registry gave the path is gone. */
  function ForgetOther(v: View, a: Announcement): View {
    if a.path in v.ids && v.ids[a.path] != a.id then
      v.(entries := v.entries - {v.ids[a.path]}, pending := v.pending - {v.ids[a.path]}, ids := v.ids - {a.path})
    else v
  }

  function Blank(path: Path): NodeEntry {
    NodeEntry(path, 0, 0, 0, 0, false, false, false)
  }

  /** The id names the path: an entry of another path starts over, and the object that had it is claimed again. */
  function NamePath(v: View, a: Announcement): View {
    if a.id !in v.entries then v.(entries := v.entries[a.id := Blank(a.path)], ids := v.ids[a.path := a.id])
    else if v.entries[a.id].path != a.path then
      var before := v.entries[a.id].path;
      var ids := if before in v.ids && v.ids[before] == a.id then v.ids - {before} else v.ids;
      v.(entries := v.entries[a.id := Blank(a.path)], ids := ids[a.path := a.id],
         claims := if before in v.objects && before !in ids[a.path := a.id] then v.claims + [before] else v.claims)
    else v
  }

  function Max(a: nat, b: nat): nat {
    if a < b then b else a
  }

  predicate Binds(v: View, e: NodeEntry, hash: nat) {
    e.bound || (e.path in v.objects && v.objects[e.path] == hash)
  }

  /** The entry says what the registry says. */
  function Write(v: View, a: Announcement): View
    requires a.id in v.entries && a.owner >= 0
  {
    var e := v.entries[a.id];
    var kept := e.owner == a.owner && e.version != 0;
    var binds := Binds(v, e.(path := a.path), a.hash);
    v.(entries := v.entries[a.id := NodeEntry(a.path, a.owner, a.version, v.epoch, a.hash, binds,
                                              kept && e.frozen, kept && e.releaseOwn)],
       pending := if e.owner != a.owner then v.pending - {a.id} else v.pending,
       highest := Max(v.highest, a.id))
  }

  /** handle_announce. */
  function TakeAnnouncement(v: View, a: Announcement): View {
    if IsMalformed(a) || IsOldNews(v, a) then v else Write(NamePath(ForgetOther(v, a), a), a)
  }

  /** handle_unregister. */
  function TakeUnregister(v: View, id: Id): View {
    if id in v.entries then v.(ids := v.ids - {v.entries[id].path}, entries := v.entries - {id}) else v
  }

  lemma ForgetOtherKeeps(v: View, a: Announcement)
    requires Valid(v)
    ensures Valid(ForgetOther(v, a))
    ensures var v' := ForgetOther(v, a); a.path in v'.ids ==> v'.ids[a.path] == a.id
  {
    var v' := ForgetOther(v, a);
    forall id | id in v'.entries ensures Named(v', id) {
      assert Named(v, id);
    }
  }

  lemma NamePathKeeps(v: View, a: Announcement)
    requires Valid(v) && (a.path in v.ids ==> v.ids[a.path] == a.id)
    ensures Valid(NamePath(v, a))
    ensures a.id in NamePath(v, a).entries && NamePath(v, a).entries[a.id].path == a.path
  {
    var v' := NamePath(v, a);
    if a.id in v.entries { assert Named(v, a.id); }
    forall id | id in v'.entries ensures Named(v', id) {
      if id != a.id { assert Named(v, id); }
    }
  }

  lemma WriteKeeps(v: View, a: Announcement)
    requires Valid(v) && a.id in v.entries && v.entries[a.id].path == a.path && a.owner >= 0
    ensures Valid(Write(v, a))
  {
    var v' := Write(v, a);
    forall id | id in v'.entries ensures Named(v', id) {
      assert Named(v, id);
    }
  }

  /** The maps stay inverse whatever the registry announces: ids and paths that contradict what the node knew
      included. */
  lemma AnnouncementKeeps(v: View, a: Announcement)
    requires Valid(v) && Versioned(v)
    ensures Valid(TakeAnnouncement(v, a)) && Versioned(TakeAnnouncement(v, a))
  {
    if !IsMalformed(a) && !IsOldNews(v, a) {
      ForgetOtherKeeps(v, a);
      NamePathKeeps(ForgetOther(v, a), a);
      WriteKeeps(NamePath(ForgetOther(v, a), a), a);
    }
  }

  lemma UnregisterKeeps(v: View, id: Id)
    requires Valid(v) && Versioned(v)
    ensures Valid(TakeUnregister(v, id)) && Versioned(TakeUnregister(v, id))
  {
    var v' := TakeUnregister(v, id);
    if id in v.entries { assert Named(v, id); }
    forall k | k in v'.entries ensures Named(v', k) {
      assert Named(v, k);
    }
  }

  /** An announcement that names the same object as before changes what `Ownership` says it does, and nothing else. */
  lemma AnnouncementIsOwnerships(v: View, a: Announcement)
    requires Valid(v) && Versioned(v) && !IsMalformed(a) && (a.id in v.entries ==> v.entries[a.id].path == a.path)
    requires a.path in v.ids ==> v.ids[a.path] == a.id
    ensures var v' := TakeAnnouncement(v, a);
      && ReplicaOf(v', a.id) == TakeAnnounce(ReplicaOf(v, a.id), a.owner, a.version)
      && (forall id :: id != a.id ==> ReplicaOf(v', id) == ReplicaOf(v, id))
  {}

  /** Whatever it names, an announcement that isn't old leaves the path with the announced id, owner and version. */
  lemma AnnouncementWins(v: View, a: Announcement)
    requires Valid(v) && !IsMalformed(a) && !IsOldNews(v, a)
    ensures var v' := TakeAnnouncement(v, a);
      && a.path in v'.ids && v'.ids[a.path] == a.id && a.id in v'.entries && v'.entries[a.id].path == a.path
      && v'.entries[a.id].owner == a.owner && v'.entries[a.id].version == a.version
  {
    ForgetOtherKeeps(v, a);
    NamePathKeeps(ForgetOther(v, a), a);
    assert Named(NamePath(ForgetOther(v, a), a), a.id);
  }

  /** Another object is forgotten exactly when it had the path, and changes in no other way. */
  lemma OthersAreSpared(v: View, a: Announcement, id: Id)
    requires Valid(v) && !IsMalformed(a) && !IsOldNews(v, a) && id != a.id && id in v.entries
    ensures var v' := TakeAnnouncement(v, a);
      && (id !in v'.entries <==> v.entries[id].path == a.path)
      && (id in v'.entries ==> v'.entries[id] == v.entries[id] && ReplicaOf(v', id) == ReplicaOf(v, id))
  {
    assert Named(v, id);
  }

  // ---------------------------------------------------------------------------------------- Transfers and denials

  function Thawed(e: NodeEntry): NodeEntry {
    e.(frozen := false, releaseOwn := false)
  }

  /** handle_denied. */
  function TakeDenied(v: View, id: Id): View {
    var thaws := id in v.entries && v.entries[id].owner == v.local && v.entries[id].frozen;
    v.(entries := if thaws then v.entries[id := Thawed(v.entries[id])] else v.entries, pending := v.pending - {id})
  }

  /** handle_transfer: the entry after it, and what the registry is told. */
  function TakeTransferOf(v: View, id: Id, version: nat, to: Node, forced: bool, approved: bool)
    : (View, seq<ToRegistry>)
  {
    if id !in v.entries || v.entries[id].owner != v.local || v.entries[id].version != version || v.entries[id].frozen
    then (v, [])
    else if !forced && v.entries[id].bound && !approved then (v, [Refuse(version)])
    else (v.(entries := v.entries[id := v.entries[id].(frozen := true)]), [Release(version, to)])
  }

  /** cancel_releases. */
  function CancelReleases(v: View): View {
    v.(entries := map id | id in v.entries :: if v.entries[id].frozen then Thawed(v.entries[id]) else v.entries[id])
  }

  /** What `Ownership` says of one object is what happens to its entry, and to no other. */
  lemma DenialIsOwnerships(v: View, id: Id)
    requires Valid(v)
    ensures Valid(TakeDenied(v, id))
    ensures ReplicaOf(TakeDenied(v, id), id) == TakeDenial(ReplicaOf(v, id), v.local)
    ensures forall k :: k != id ==> ReplicaOf(TakeDenied(v, id), k) == ReplicaOf(v, k)
  {
    SamePaths(v, TakeDenied(v, id));
  }

  lemma TransferIsOwnerships(v: View, id: Id, version: nat, to: Node, forced: bool, approved: bool)
    requires Valid(v)
    ensures var (v', sent) := TakeTransferOf(v, id, version, to, forced, approved);
      && Valid(v')
      && (ReplicaOf(v', id), sent) ==
           TakeTransfer(ReplicaOf(v, id), v.local, version, to, forced,
                        approved || (id in v.entries && !v.entries[id].bound))
      && (forall k :: k != id ==> ReplicaOf(v', k) == ReplicaOf(v, k))
  {
    SamePaths(v, TakeTransferOf(v, id, version, to, forced, approved).0);
  }

  lemma CancelKeeps(v: View)
    requires Valid(v)
    ensures Valid(CancelReleases(v)) && forall id :: id in CancelReleases(v).entries ==>
      !CancelReleases(v).entries[id].frozen
  {
    SamePaths(v, CancelReleases(v));
  }

  /** Entries that keep their paths, and stay bound as they were, keep the maps valid. */
  lemma SamePaths(v: View, v': View)
    requires Valid(v) && v'.ids == v.ids && v'.objects == v.objects && v'.entries.Keys == v.entries.Keys
    requires forall id :: id in v.entries ==>
               v'.entries[id].path == v.entries[id].path && v'.entries[id].bound == v.entries[id].bound
    ensures Valid(v')
  {
    forall id | id in v'.entries ensures Named(v', id) {
      assert Named(v, id);
    }
  }

  // ------------------------------------------------------------------------------------------------------ Objects

  /** register_object, unless another object has the path: it's bound to the entry of its path, if there is one with its
      variables and codecs, and it's claimed. */
  function AddObject(v: View, path: Path, hash: nat): View {
    var v' := v.(objects := v.objects[path := hash], claims := v.claims + [path]);
    if path in v.objects then v
    else if path in v.ids && v.ids[path] in v.entries && v.entries[v.ids[path]].hash == hash
    then v'.(entries := v.entries[v.ids[path] := v.entries[v.ids[path]].(bound := true)]) else v'
  }

  /** unregister_object. */
  function RemoveObject(v: View, path: Path): View {
    var v' := v.(objects := v.objects - {path});
    if path in v.ids && v.ids[path] in v.entries
    then v'.(entries := v.entries[v.ids[path] := v.entries[v.ids[path]].(bound := false)]) else v'
  }

  lemma AddObjectKeeps(v: View, path: Path, hash: nat)
    requires Valid(v)
    ensures Valid(AddObject(v, path, hash))
  {
    var v' := AddObject(v, path, hash);
    forall id | id in v.entries ensures Named(v', id) {
      assert Named(v, id);
    }
  }

  lemma RemoveObjectKeeps(v: View, path: Path)
    requires Valid(v)
    ensures Valid(RemoveObject(v, path))
  {
    var v' := RemoveObject(v, path);
    forall id | id in v.entries ensures Named(v', id) {
      assert Named(v, id);
    }
  }

  // --------------------------------------------------------------------------------------------------- The object

  /** A node of a mesh, as it works: two maps updated in place. `sent`: what it told the registry. */
  class MeshNode {
    const local: Node
    var epoch: nat
    var entries: map<Id, NodeEntry>
    var ids: map<Path, Id>
    var objects: map<Path, nat>
    var pending: set<Id>
    var highest: Id
    var claims: seq<Path>
    var sent: seq<(Id, ToRegistry)>

    constructor (local: Node)
      ensures V() == View(local, 1, map[], map[], map[], {}, 0, []) && sent == [] && Valid(V()) && Versioned(V())
    {
      this.local := local;
      epoch, entries, ids, objects, pending, highest, claims, sent := 1, map[], map[], map[], {}, 0, [], [];
    }

    ghost function V(): View
      reads this
    {
      View(local, epoch, entries, ids, objects, pending, highest, claims)
    }

    method HandleAnnounce(a: Announcement)
      requires Valid(V()) && Versioned(V())
      modifies this`entries, this`ids, this`pending, this`highest, this`claims
      ensures V() == TakeAnnouncement(old(V()), a) && Valid(V()) && Versioned(V())
    {
      AnnouncementKeeps(V(), a);
      if a.id == 0 || a.path == "" || a.owner < 0 || a.version == 0 {
        return;
      }
      if a.id in entries && entries[a.id].epoch == epoch && entries[a.id].version != a.version &&
         !SerialNewer(a.version, entries[a.id].version) {
        return;
      }
      if a.path in ids && ids[a.path] != a.id {
        pending, entries := pending - {ids[a.path]}, entries - {ids[a.path]};
        ids := ids - {a.path};
      }
      TakeName(a);
      WriteEntry(a);
    }

    method TakeName(a: Announcement)
      modifies this`entries, this`ids, this`claims
      ensures V() == NamePath(old(V()), a) && a.id in entries
    {
      if a.id !in entries {
        entries, ids := entries[a.id := Blank(a.path)], ids[a.path := a.id];
      }
      if entries[a.id].path != a.path {
        var before := entries[a.id].path;
        if before in ids && ids[before] == a.id {
          ids := ids - {before};
        }
        entries, ids := entries[a.id := Blank(a.path)], ids[a.path := a.id];
        if before in objects && before !in ids {
          claims := claims + [before];
        }
      }
    }

    method WriteEntry(a: Announcement)
      requires a.id in entries && a.owner >= 0
      modifies this`entries, this`pending, this`highest
      ensures V() == Write(old(V()), a)
    {
      var e := entries[a.id];
      var first, oldOwner := e.version == 0, e.owner;
      highest := if highest < a.id then a.id else highest;
      if oldOwner != a.owner {
        pending := pending - {a.id};
      }
      e := e.(path := a.path, owner := a.owner, version := a.version, epoch := epoch, hash := a.hash);
      if !e.bound && e.path in objects && objects[e.path] == a.hash {
        e := e.(bound := true);
      }
      if oldOwner != a.owner || first {
        e := e.(frozen := false, releaseOwn := false);
      }
      entries := entries[a.id := e];
    }

    method HandleUnregister(id: Id)
      requires Valid(V()) && Versioned(V())
      modifies this`entries, this`ids
      ensures V() == TakeUnregister(old(V()), id) && Valid(V()) && Versioned(V())
    {
      UnregisterKeeps(V(), id);
      if id in entries {
        ids := ids - {entries[id].path};
        entries := entries - {id};
      }
    }

    method HandleDenied(id: Id)
      requires Valid(V())
      modifies this`entries, this`pending
      ensures V() == TakeDenied(old(V()), id) && Valid(V())
    {
      DenialIsOwnerships(V(), id);
      if id in entries && entries[id].owner == local && entries[id].frozen {
        entries := entries[id := entries[id].(frozen := false, releaseOwn := false)];
      }
      pending := pending - {id};
    }

    /** `approved`: the object's answer, when it's asked. */
    method HandleTransfer(id: Id, version: nat, to: Node, forced: bool, approved: bool)
      requires Valid(V())
      modifies this`entries, this`sent
      ensures Valid(V()) && V() == TakeTransferOf(old(V()), id, version, to, forced, approved).0
      ensures sent == old(sent) + Tagged(id, TakeTransferOf(old(V()), id, version, to, forced, approved).1)
    {
      TransferIsOwnerships(V(), id, version, to, forced, approved);
      if id !in entries || entries[id].owner != local || entries[id].version != version || entries[id].frozen {
        return;
      }
      if !forced && entries[id].bound && !approved {
        sent := sent + [(id, Refuse(version))];
        return;
      }
      entries := entries[id := entries[id].(frozen := true)];
      sent := sent + [(id, Release(version, to))];
    }

    /** The releases in progress are given up: nobody will answer them. */
    method GiveUpReleases()
      requires Valid(V())
      modifies this`entries
      ensures V() == CancelReleases(old(V())) && Valid(V())
    {
      CancelKeeps(V());
      ghost var before := V();
      var rest := entries.Keys;
      while rest != {}
        invariant rest <= before.entries.Keys && entries.Keys == before.entries.Keys
        invariant forall id :: id in entries ==>
                    entries[id] == if id in rest then before.entries[id] else CancelReleases(before).entries[id]
        decreases |rest|
      {
        var id :| id in rest;
        if entries[id].frozen {
          entries := entries[id := entries[id].(frozen := false, releaseOwn := false)];
        }
        rest := rest - {id};
      }
      assert entries == CancelReleases(before).entries;
    }
  }

  function Tagged(id: Id, messages: seq<ToRegistry>): seq<(Id, ToRegistry)> {
    seq(|messages|, i requires 0 <= i < |messages| => (id, messages[i]))
  }
}
