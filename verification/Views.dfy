/** What a node's view of the objects is after a message, told from what the message says; and what runs of messages
    keep. */
module Views {
  import opened Frames
  import opened Snapshots
  import opened Ownership
  import opened Replicas

  /** Whether an announcement is taken: it's well formed, and the registry's last word on its id isn't newer. */
  predicate IsTaken(v: View, a: Announcement) {
    && a.id != 0 && a.path != "" && a.owner >= 0 && a.version != 0
    && (a.id in v.entries && v.entries[a.id].epoch == v.epoch ==>
          a.version == v.entries[a.id].version || SerialNewer(a.version, v.entries[a.id].version))
  }

  /** Whether the announced id has the announced path already. */
  predicate IsNamed(v: View, a: Announcement) {
    a.id in v.entries && v.entries[a.id].path == a.path
  }

  predicate HasLocal(v: View, path: Path, hash: nat) {
    path in v.objects && v.objects[path] == hash
  }

  /** The entry an announcement leaves. It's bound to the local object of its path, if that has the registry's variables
      and codecs; one that was bound stays bound. A release in progress goes on while the owner stays. */
  function EntryAfter(v: View, a: Announcement): NodeEntry
    requires a.owner >= 0
  {
    var named := IsNamed(v, a);
    var goesOn := named && v.entries[a.id].owner == a.owner;
    NodeEntry(a.path, a.owner, a.version, v.epoch, a.hash,
              HasLocal(v, a.path, a.hash) || (named && v.entries[a.id].bound),
              goesOn && v.entries[a.id].frozen, goesOn && v.entries[a.id].releaseOwn)
  }

  /** What an announcement changes, whatever it names. */
  lemma AnnouncementIsWritten(v: View, a: Announcement, id: Id)
    requires Valid(v) && Versioned(v)
    ensures !IsTaken(v, a) ==> TakeAnnouncement(v, a) == v
    ensures IsTaken(v, a) ==>
      var v' := TakeAnnouncement(v, a);
      && a.id in v'.entries && v'.entries[a.id] == EntryAfter(v, a)
      && (id != a.id ==> (id in v'.entries <==> id in v.entries && v.entries[id].path != a.path)
                         && (id in v'.entries ==> v'.entries[id] == v.entries[id]))
      && v'.objects == v.objects && v'.epoch == v.epoch && v'.local == v.local
      && v'.highest == (if v.highest < a.id then a.id else v.highest)
  {
    if a.id in v.entries { assert Named(v, a.id); }
    if id in v.entries { assert Named(v, id); }
  }

  /** The requests that an announcement answers: those of the id whose owner changes, and of the id that loses the
      path. */
  lemma RequestsAreAnswered(v: View, a: Announcement, id: Id)
    requires Valid(v) && Versioned(v) && IsTaken(v, a)
    ensures id in TakeAnnouncement(v, a).pending <==>
      && id in v.pending
      && (id == a.id ==> a.owner == if IsNamed(v, a) then v.entries[a.id].owner else 0)
      && (id != a.id ==> !(id in v.entries && v.entries[id].path == a.path))
  {
    if a.id in v.entries { assert Named(v, a.id); }
    if id in v.entries { assert Named(v, id); }
  }

  /** A local object whose id is given to another path is claimed again. */
  lemma RenamedIsClaimed(v: View, a: Announcement)
    requires Valid(v) && Versioned(v) && IsTaken(v, a)
    ensures TakeAnnouncement(v, a).claims ==
      if a.id in v.entries && v.entries[a.id].path != a.path && v.entries[a.id].path in v.objects
      then v.claims + [v.entries[a.id].path] else v.claims
  {
    if a.id in v.entries { assert Named(v, a.id); }
  }

  /** What the registry removed is forgotten, with its path; nothing else is. */
  lemma RemovalIsWritten(v: View, id: Id, other: Id)
    requires Valid(v)
    ensures var v' := TakeUnregister(v, id);
      && id !in v'.entries && v' == v.(entries := v'.entries, ids := v'.ids)
      && (other != id ==> (other in v'.entries <==> other in v.entries))
      && (other in v'.entries ==> v'.entries[other] == v.entries[other])
  {}

  /** Giving up the releases thaws the frozen entries; nothing else changes. */
  lemma ReleasesAreGivenUp(v: View, id: Id)
    ensures var v' := CancelReleases(v);
      && v' == v.(entries := v'.entries) && (id in v'.entries <==> id in v.entries)
      && (id in v.entries && !v.entries[id].frozen ==> v'.entries[id] == v.entries[id])
      && (id in v.entries && v.entries[id].frozen ==>
            v'.entries[id] == v.entries[id].(frozen := false, releaseOwn := false))
  {}

  /** A local object is bound to the entry of its path when it's added, if that has its variables and codecs, and to
      none once it's removed. */
  lemma ObjectsAreBound(v: View, path: Path, hash: nat, id: Id)
    requires Valid(v) && id in v.entries
    ensures path in v.objects ==> AddObject(v, path, hash) == v
    ensures path !in v.objects ==>
      var v' := AddObject(v, path, hash);
      && v'.objects == v.objects[path := hash] && v'.claims == v.claims + [path] && id in v'.entries
      && v'.entries[id] == v.entries[id].(bound := v.entries[id].bound ||
                                                   (v.entries[id].path == path && v.entries[id].hash == hash))
    ensures var v' := RemoveObject(v, path);
      && v'.objects == v.objects - {path} && id in v'.entries
      && v'.entries[id] == v.entries[id].(bound := v.entries[id].bound && v.entries[id].path != path)
  {
    assert Named(v, id);
  }

  // -------------------------------------------------------------------------------------------------- Whole runs

  datatype Event =
    | Announces(a: Announcement)
    | Removes(id: Id)
    | Denies(id: Id)
    | Transfers(id: Id, version: nat, to: Node, forced: bool, approved: bool)
    | GivesUp
    | Adds(path: Path, hash: nat)
    | Loses(path: Path)

  function After(v: View, e: Event): View {
    match e
    case Announces(a) => TakeAnnouncement(v, a)
    case Removes(id) => TakeUnregister(v, id)
    case Denies(id) => TakeDenied(v, id)
    case Transfers(id, version, to, forced, approved) => TakeTransferOf(v, id, version, to, forced, approved).0
    case GivesUp => CancelReleases(v)
    case Adds(path, hash) => AddObject(v, path, hash)
    case Loses(path) => RemoveObject(v, path)
  }

  function AfterAll(v: View, events: seq<Event>): View
    decreases |events|
  {
    if events == [] then v else AfterAll(After(v, events[0]), events[1..])
  }

  /** Every local object was claimed, and no id the node knows is above the highest it heard of. */
  ghost predicate Complete(v: View) {
    && (forall path :: path in v.objects ==> path in v.claims)
    && (forall id :: id in v.entries ==> id <= v.highest)
  }

  /** What every event keeps. */
  ghost predicate GoesOn(v: View, v': View) {
    Valid(v') && Versioned(v') && Complete(v') && v'.highest >= v.highest && v.claims <= v'.claims
  }

  lemma EventKeeps(v: View, e: Event)
    requires Valid(v) && Versioned(v) && Complete(v)
    ensures GoesOn(v, After(v, e))
  {
    match e
    case Announces(a) => AnnouncedGoesOn(v, a);
    case Removes(id) => UnregisterKeeps(v, id);
    case Denies(id) => DeniedGoesOn(v, id);
    case Transfers(id, version, to, forced, approved) => TransferGoesOn(v, id, version, to, forced, approved);
    case GivesUp => GivenUpGoesOn(v);
    case Adds(path, hash) => AddedGoesOn(v, path, hash);
    case Loses(path) => LostGoesOn(v, path);
  }

  lemma AnnouncedGoesOn(v: View, a: Announcement)
    requires Valid(v) && Versioned(v) && Complete(v)
    ensures GoesOn(v, TakeAnnouncement(v, a))
  {
    AnnouncementKeeps(v, a);
    AnnouncedIsComplete(v, a);
  }

  lemma AddedGoesOn(v: View, path: Path, hash: nat)
    requires Valid(v) && Versioned(v) && Complete(v)
    ensures GoesOn(v, AddObject(v, path, hash))
  {
    AddObjectKeeps(v, path, hash);
  }

  lemma LostGoesOn(v: View, path: Path)
    requires Valid(v) && Versioned(v) && Complete(v)
    ensures GoesOn(v, RemoveObject(v, path))
  {
    RemoveObjectKeeps(v, path);
  }

  lemma DeniedGoesOn(v: View, id: Id)
    requires Valid(v) && Versioned(v) && Complete(v)
    ensures GoesOn(v, TakeDenied(v, id))
  {
    DenialIsOwnerships(v, id);
    SameIdsComplete(v, TakeDenied(v, id));
  }

  lemma TransferGoesOn(v: View, id: Id, version: nat, to: Node, forced: bool, approved: bool)
    requires Valid(v) && Versioned(v) && Complete(v)
    ensures GoesOn(v, TakeTransferOf(v, id, version, to, forced, approved).0)
  {
    TransferIsOwnerships(v, id, version, to, forced, approved);
    SameIdsComplete(v, TakeTransferOf(v, id, version, to, forced, approved).0);
  }

  lemma GivenUpGoesOn(v: View)
    requires Valid(v) && Versioned(v) && Complete(v)
    ensures GoesOn(v, CancelReleases(v))
  {
    CancelKeeps(v);
    SameIdsComplete(v, CancelReleases(v));
  }

  lemma SameIdsComplete(v: View, v': View)
    requires Versioned(v) && Complete(v) && v'.entries.Keys == v.entries.Keys && v'.objects == v.objects
    requires v'.claims == v.claims && v'.highest == v.highest
    requires forall id :: id in v.entries ==> v'.entries[id].version == v.entries[id].version
    ensures Versioned(v') && Complete(v')
  {}

  lemma AnnouncedIsComplete(v: View, a: Announcement)
    requires Valid(v) && Versioned(v) && Complete(v)
    ensures var v' := TakeAnnouncement(v, a); Complete(v') && v'.highest >= v.highest && v.claims <= v'.claims
  {
    AnnouncementIsWritten(v, a, a.id);
    if IsTaken(v, a) {
      RenamedIsClaimed(v, a);
      forall id | id in TakeAnnouncement(v, a).entries ensures id <= TakeAnnouncement(v, a).highest {
        AnnouncementIsWritten(v, a, id);
      }
    }
  }

  /** Over any messages and any objects added and removed, the ids and the paths name each other, no object is bound
      twice or to another path, every local object was claimed, and the highest id heard of only goes up and covers
      every entry. */
  lemma {:induction false} ViewsStayWhole(v: View, events: seq<Event>)
    requires Valid(v) && Versioned(v) && Complete(v)
    ensures var v' := AfterAll(v, events); Valid(v') && Versioned(v') && Complete(v') && v'.highest >= v.highest
    decreases |events|
  {
    if events != [] {
      EventKeeps(v, events[0]);
      ViewsStayWhole(After(v, events[0]), events[1..]);
    }
  }
}
