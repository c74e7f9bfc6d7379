/** Net ids: 16-bit names of synchronized objects, never 0. A released id is kept in quarantine and isn't given again
    until no message that speaks of its old object can be on its way. */
module NetIds {
  import opened Frames
  import opened Snapshots

  const U16: nat := 0x1_0000
  /** Most ids live or in quarantine, and most attempts at finding a free one: UINT16_MAX - 1, UINT16_MAX. */
  const MAX_IDS: nat := 65534
  const MAX_ATTEMPTS: nat := 65535

  /** Whether an id released at a frame is still in quarantine, on 32-bit frames. */
  predicate IsFresh(released: nat, current: nat, quarantine: nat) {
    Wrap32(current - released) < quarantine
  }

  /** On frames that don't wrap around, an id leaves the quarantine once that many frames passed. */
  lemma FreshIsRecent(released: nat, current: nat, quarantine: nat)
    requires released <= current < released + U32
    ensures IsFresh(Wrap32(released), Wrap32(current), quarantine) <==> current < released + quarantine
  {
    WrapDifference(current, released);
    ModUnique(current - released, 0, current - released, U32);
  }

  function Pruned(quarantined: map<Id, nat>, current: nat, quarantine: nat): map<Id, nat> {
    map id | id in quarantined && IsFresh(quarantined[id], current, quarantine) :: quarantined[id]
  }

  /** tick_prune_quarantine: collects the expired ids, then erases them. */
  method PruneQuarantine(quarantined: map<Id, nat>, current: nat, quarantine: nat) returns (kept: map<Id, nat>)
    ensures kept == Pruned(quarantined, current, quarantine)
  {
    var expired := CollectExpired(quarantined, current, quarantine);
    kept := quarantined;
    var i := 0;
    while i < |expired|
      invariant 0 <= i <= |expired|
      invariant kept == quarantined - ToSet(expired[..i])
    {
      assert ToSet(expired[..i + 1]) == ToSet(expired[..i]) + {expired[i]};
      kept := kept - {expired[i]};
      i := i + 1;
    }
    assert expired[..i] == expired;
  }

  method CollectExpired(quarantined: map<Id, nat>, current: nat, quarantine: nat) returns (expired: seq<Id>)
    ensures forall id :: id in expired <==> id in quarantined && !IsFresh(quarantined[id], current, quarantine)
  {
    expired := [];
    var rest := quarantined.Keys;
    while rest != {}
      invariant rest <= quarantined.Keys
      invariant forall id :: id in expired <==>
                  id in quarantined && id !in rest && !IsFresh(quarantined[id], current, quarantine)
      decreases |rest|
    {
      var id :| id in rest;
      if !IsFresh(quarantined[id], current, quarantine) {
        expired := expired + [id];
      }
      rest := rest - {id};
    }
  }

  // ------------------------------------------------------------------------------------------------------ Search

  /** The `i`th id tried from `start` on, around the end of the ids. */
  function Tried(start: nat, i: nat): (id: nat)
    requires start < U16 && i < U16
    ensures id < U16
  {
    if start + i < U16 then start + i else start + i - U16
  }

  function AllTried(start: nat, n: nat): set<nat>
    requires start < U16 && n <= U16
    decreases n
  {
    if n == 0 then {} else AllTried(start, n - 1) + {Tried(start, n - 1)}
  }

  lemma {:induction false} TriedIsNew(start: nat, n: nat, i: nat)
    requires start < U16 && n <= i < U16
    ensures Tried(start, i) !in AllTried(start, n)
    decreases n
  {
    if n > 0 { TriedIsNew(start, n - 1, i); }
  }

  /** The search tries as many ids as it makes attempts. */
  lemma {:induction false} AttemptsAreDistinct(start: nat, n: nat)
    requires start < U16 && n <= U16
    ensures |AllTried(start, n)| == n
    decreases n
  {
    if n > 0 {
      AttemptsAreDistinct(start, n - 1);
      TriedIsNew(start, n - 1, n - 1);
    }
  }

  /** Whether an id can't be given: it's "none", an object has it, or it's in quarantine. */
  predicate Blocked(live: set<Id>, quarantined: map<Id, nat>, current: nat, quarantine: nat, id: Id) {
    id == 0 || id in live || (id in quarantined && IsFresh(quarantined[id], current, quarantine))
  }

  /** Not every attempt fails while fewer ids than the most are taken: the pigeons have one hole left. */
  lemma SomeAttemptSucceeds(live: set<Id>, quarantined: map<Id, nat>, current: nat, quarantine: nat, start: nat)
    requires start < U16 && |live| + |quarantined| < MAX_IDS
    ensures exists i :: 0 <= i < MAX_ATTEMPTS && !Blocked(live, quarantined, current, quarantine, Tried(start, i))
  {
    var taken := {0} + live + quarantined.Keys;
    assert |taken| <= 1 + |live| + |quarantined.Keys| && |quarantined.Keys| == |quarantined|;
    AttemptsAreDistinct(start, MAX_ATTEMPTS);
    if forall i :: 0 <= i < MAX_ATTEMPTS ==> Blocked(live, quarantined, current, quarantine, Tried(start, i)) {
      AllBlocked(live, quarantined, current, quarantine, start, MAX_ATTEMPTS);
      SmallerSet(AllTried(start, MAX_ATTEMPTS), taken);
    }
  }

  lemma {:induction false} AllBlocked(live: set<Id>, quarantined: map<Id, nat>, current: nat, quarantine: nat,
                                      start: nat, n: nat)
    requires start < U16 && n <= MAX_ATTEMPTS
    requires forall i :: 0 <= i < MAX_ATTEMPTS ==> Blocked(live, quarantined, current, quarantine, Tried(start, i))
    ensures AllTried(start, n) <= {0} + live + quarantined.Keys
    decreases n
  {
    if n > 0 {
      AllBlocked(live, quarantined, current, quarantine, start, n - 1);
      assert Blocked(live, quarantined, current, quarantine, Tried(start, n - 1));
    }
  }

  lemma SmallerSet(a: set<nat>, b: set<nat>)
    requires a <= b
    ensures |a| <= |b|
  {
    assert |b| == |a| + |b - a| by { assert a + (b - a) == b; }
  }

  /** The next value of a 16-bit counter. */
  function After(id: nat): (r: nat)
    requires id < U16
    ensures r < U16
  {
    if id + 1 == U16 then 0 else id + 1
  }

  /** Whether the first `n` ids tried are all blocked. */
  ghost predicate FirstFree(live: set<Id>, quarantined: map<Id, nat>, current: nat, quarantine: nat, start: nat,
                            n: nat) {
    start < U16 && n <= MAX_ATTEMPTS &&
    forall i :: 0 <= i < n ==> Blocked(live, quarantined, current, quarantine, Tried(start, i))
  }

  /** Whether an id is the first one tried that isn't blocked. */
  ghost predicate FoundFirst(live: set<Id>, quarantined: map<Id, nat>, current: nat, quarantine: nat, start: nat,
                             id: Id) {
    exists n :: 0 <= n < MAX_ATTEMPTS && FirstFree(live, quarantined, current, quarantine, start, n) &&
                id == Tried(start, n) && !Blocked(live, quarantined, current, quarantine, id)
  }

  /** The search of both engines: it always ends on an id that can be given. */
  method FindFree(live: set<Id>, quarantined: map<Id, nat>, current: nat, quarantine: nat, start: nat) returns (id: Id)
    requires start < U16 && |live| + |quarantined| < MAX_IDS
    ensures 0 < id < U16 && !Blocked(live, quarantined, current, quarantine, id)
    ensures FoundFirst(live, quarantined, current, quarantine, start, id)
  {
    SomeAttemptSucceeds(live, quarantined, current, quarantine, start);
    id := start;
    var attempt := 0;
    while attempt < MAX_ATTEMPTS
      invariant 0 <= attempt <= MAX_ATTEMPTS && id == Tried(start, attempt)
      invariant FirstFree(live, quarantined, current, quarantine, start, attempt)
    {
      if id == 0 || id in live {
        id := After(id);
      } else if id in quarantined && Wrap32(current - quarantined[id]) < quarantine {
        id := After(id);
      } else {
        break;
      }
      attempt := attempt + 1;
    }
  }

  // -------------------------------------------------------------------------------------------------- Allocation

  /** How far an id is from another one, going up and around. */
  function Ahead(start: nat, id: nat): nat
    requires start < U16
  {
    if start <= id then id - start else id + U16 - start
  }

  /** What the search finds, told without it: an id that's not "none", that no object has, and that was released at
      least a quarantine ago if it was; the nearest such one, going up and around from where the search starts. */
  lemma FoundIsNearest(live: set<Id>, quarantined: map<Id, nat>, current: nat, quarantine: nat, start: nat, id: Id,
                       x: Id)
    requires FoundFirst(live, quarantined, current, quarantine, start, id) && 0 < x < U16
    ensures 0 < id < U16 && id !in live && (id in quarantined ==> (current - quarantined[id]) % U32 >= quarantine)
    ensures x !in live && (x in quarantined ==> (current - quarantined[x]) % U32 >= quarantine) ==>
      Ahead(start, id) <= Ahead(start, x)
    ensures After(id) == (id + 1) % U16
  {
    var n :| 0 <= n < MAX_ATTEMPTS && FirstFree(live, quarantined, current, quarantine, start, n)
      && id == Tried(start, n);
    if Ahead(start, x) < n {
      assert Tried(start, Ahead(start, x)) == x;
      assert Blocked(live, quarantined, current, quarantine, Tried(start, Ahead(start, x)));
    }
  }

  // ---------------------------------------------------------------------------------------------------- Whole runs

  /** The ids in use and in quarantine; `last`: the frame each id was last released at, counted without wrapping
      around. */
  datatype Ids = Ids(live: set<Id>, quarantined: map<Id, nat>, next: nat, last: map<Id, nat>)

  datatype Event = Gives(id: Id, at: nat) | Releases(id: Id, at: nat)

  /** An engine may forget the expired ids before it looks for a free one. */
  ghost predicate CanHappen(s: Ids, e: Event, quarantine: nat) {
    match e
    case Gives(id, at) => s.next < U16 && FoundFirst(s.live, s.quarantined, Wrap32(at), quarantine, s.next, id)
    case Releases(id, _) => id in s.live
  }

  function Happens(s: Ids, e: Event, quarantine: nat, prunes: bool): Ids {
    match e
    case Gives(id, at) =>
      var kept := if prunes then Pruned(s.quarantined, Wrap32(at), quarantine) else s.quarantined;
      s.(live := s.live + {id}, quarantined := kept - {id}, next := if id < U16 then After(id) else 0)
    case Releases(id, at) =>
      s.(live := s.live - {id}, quarantined := s.quarantined[id := Wrap32(at)], last := s.last[id := at])
  }

  ghost predicate Run(s: Ids, now: nat, events: seq<(Event, bool)>, quarantine: nat)
    decreases |events|
  {
    events == [] ||
    (var (e, prunes) := events[0];
     now <= e.at && CanHappen(s, e, quarantine)
       && Run(Happens(s, e, quarantine, prunes), e.at, events[1..], quarantine))
  }

  /** An id released less than a quarantine ago is in quarantine. */
  ghost predicate Remembers(s: Ids, now: nat, quarantine: nat) {
    forall id :: id in s.last && now < s.last[id] + quarantine ==> IsQuarantined(s, id)
  }

  predicate IsQuarantined(s: Ids, id: Id)
    requires id in s.last
  {
    id in s.quarantined && s.quarantined[id] == Wrap32(s.last[id])
  }

  lemma EventRemembers(s: Ids, now: nat, e: Event, prunes: bool, quarantine: nat)
    requires quarantine <= U32 && now <= e.at && CanHappen(s, e, quarantine) && Remembers(s, now, quarantine)
    requires forall id :: id in s.last ==> s.last[id] <= now
    ensures e.Gives? && e.id in s.last ==> s.last[e.id] + quarantine <= e.at
    ensures e.Gives? ==> 0 < e.id < U16 && e.id !in s.live
    ensures var s' := Happens(s, e, quarantine, prunes);
      Remembers(s', e.at, quarantine) && forall id :: id in s'.last ==> s'.last[id] <= e.at
  {
    var s' := Happens(s, e, quarantine, prunes);
    if e.Gives? {
      FoundIsNearest(s.live, s.quarantined, Wrap32(e.at), quarantine, s.next, e.id, 1);
      if e.id in s.last && e.at < s.last[e.id] + quarantine {
        assert IsQuarantined(s, e.id);
        FreshIsRecent(s.last[e.id], e.at, quarantine);
      }
    }
    forall id | id in s'.last && e.at < s'.last[id] + quarantine ensures IsQuarantined(s', id) {
      if e.Gives? {
        assert IsQuarantined(s, id);
        FreshIsRecent(s.last[id], e.at, quarantine);
      } else if id != e.id {
        assert IsQuarantined(s, id);
      }
    }
  }

  /** In every run, no id is given to two objects at once, nor again less than a quarantine after its object was
      released: each id given is free, whatever was given and released before, and whenever the engine forgot the
      expired ones. */
  lemma {:induction false} NoIdComesBackEarly(s: Ids, now: nat, events: seq<(Event, bool)>, quarantine: nat, i: nat)
    requires quarantine <= U32 && Run(s, now, events, quarantine) && Remembers(s, now, quarantine) && i < |events|
    requires (forall id :: id in s.last ==> s.last[id] <= now) && events[i].0.Gives?
    ensures var before := StateAt(s, events, quarantine, i); var e := events[i].0;
      && 0 < e.id < U16 && e.id !in before.live
      && (e.id in before.last ==> before.last[e.id] + quarantine <= e.at)
    decreases |events|
  {
    var (e, prunes) := events[0];
    EventRemembers(s, now, e, prunes, quarantine);
    if i > 0 {
      NoIdComesBackEarly(Happens(s, e, quarantine, prunes), e.at, events[1..], quarantine, i - 1);
    }
  }

  /** The ids before the `i`th event. */
  function StateAt(s: Ids, events: seq<(Event, bool)>, quarantine: nat, i: nat): Ids
    requires i < |events|
    decreases i
  {
    if i == 0 then s
    else StateAt(Happens(s, events[0].0, quarantine, events[0].1), events[1..], quarantine, i - 1)
  }

  /** The ids of an engine: the objects', the released ones with the frame they were released at, and the next to
      try. */
  class Allocator {
    var live: set<Id>
    var quarantined: map<Id, nat>
    var next: nat

    constructor ()
      ensures live == {} && quarantined == map[] && next == 1 && Valid()
    {
      live, quarantined, next := {}, map[], 1;
    }

    ghost predicate Valid()
      reads this
    {
      next < U16 && 0 !in live
    }

    /** What stays in quarantine when an id is asked for: the expired ones are forgotten only when ids run out. */
    ghost function Kept(current: nat, quarantine: nat): map<Id, nat>
      reads this
    {
      if |live| + |quarantined| >= MAX_IDS then Pruned(quarantined, current, quarantine) else quarantined
    }

    /** The id of a new object; none exactly when too many are taken. */
    method Allocate(current: nat, quarantine: nat) returns (id: Option<Id>)
      requires Valid()
      modifies this
      ensures Valid()
      ensures id.None? <==> |old(live)| + |old(Kept(current, quarantine))| >= MAX_IDS
      ensures id.None? ==> live == old(live) && quarantined == old(Kept(current, quarantine)) && next == old(next)
      ensures id.Some? ==>
                && 0 < id.value < U16 && !Blocked(old(live), old(quarantined), current, quarantine, id.value)
                && live == old(live) + {id.value} && quarantined == old(Kept(current, quarantine)) - {id.value}
                && next == After(id.value)
      ensures id.Some? ==>
        FoundFirst(old(live), old(Kept(current, quarantine)), current, quarantine, old(next), id.value)
    {
      if |live| + |quarantined| >= MAX_IDS {
        quarantined := PruneQuarantine(quarantined, current, quarantine);
      }
      if |live| + |quarantined| >= MAX_IDS {
        return None;
      }
      var free := FindFree(live, quarantined, current, quarantine, next);
      quarantined := quarantined - {free};
      id, next := Some(free), After(free);
      live := live + {id.value};
    }

    /** The object of an id is gone: the id goes into quarantine. */
    method Release(id: Id, current: nat)
      requires Valid() && id in live
      modifies this`live, this`quarantined
      ensures Valid() && live == old(live) - {id} && quarantined == old(quarantined)[id := current]
    {
      live, quarantined := live - {id}, quarantined[id := current];
    }
  }
}
