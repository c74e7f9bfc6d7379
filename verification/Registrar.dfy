/** The registry's books: the record of every object, by id, and the id of every path. What happens to one record is
    `Ownership`'s; this module is about all of them, and about a registry that takes over: it merges every node's view,
    and announces everything again. */
module Registrar {
  import opened Frames
  import opened Snapshots
  import opened Ownership
  import NetIds
  import R = Replicas

  type Path = R.Path

  datatype Listing = Listing(path: Path, hold: Hold, hash: nat)

  /** `objects`: the objects of the registry's own node, by path, with their hash. `next`: the next id to try.
      `highest`: no id in use is above it. */
  datatype Books = Books(ready: set<Node>, departed: set<Node>, objects: map<Path, nat>, records: map<Id, Listing>,
                         ids: map<Path, Id>, quarantined: map<Id, nat>, next: nat, highest: Id, settling: bool)

  ghost predicate Inverse(b: Books) {
    && (forall id :: id in b.records ==> Named(b, id))
    && (forall path :: path in b.ids ==> b.ids[path] in b.records && b.records[b.ids[path]].path == path)
  }

  predicate Named(b: Books, id: Id)
    requires id in b.records
  {
    b.records[id].path in b.ids && b.ids[b.records[id].path] == id
  }

  ghost predicate Valid(b: Books) {
    && Inverse(b) && b.next < NetIds.U16 && 0 !in b.records
    && forall id :: id in b.records ==> b.records[id].hold.Valid()
  }

  function HoldOf(b: Books, id: Id): Option<Hold> {
    if id in b.records then Some(b.records[id].hold) else None
  }

  /** registry_schema_hash: the registry's own object is the reference. */
  function HashOf(b: Books, path: Path, told: nat): nat {
    if path in b.objects then b.objects[path] else told
  }

  /** An answer about a record that stays, or goes. */
  function Apply(b: Books, id: Id, a: Answer): Books
    requires id in b.records
  {
    if a.hold.Some? then b.(records := b.records[id := b.records[id].(hold := a.hold.value)])
    else b.(records := b.records - {id}, ids := b.ids - {b.records[id].path})
  }

  lemma ApplyKeeps(b: Books, id: Id, a: Answer)
    requires Valid(b) && id in b.records && (a.hold.Some? ==> a.hold.value.Valid())
    ensures Valid(Apply(b, id, a))
    ensures forall k :: HoldOf(Apply(b, id, a), k) == if k == id then a.hold else HoldOf(b, k)
  {
    var b' := Apply(b, id, a);
    assert Named(b, id);
    forall k | k in b'.records ensures Named(b', k) {
      assert Named(b, k);
    }
  }

  // ------------------------------------------------------------------------------------------------------ Reports

  /** What a node says of an object. */
  datatype Told = Told(id: Id, path: Path, owner: int, version: nat, hash: nat)

  /** What a report can't hold, or is refused. */
  predicate IsMalformed(t: Told) {
    t.id == 0 || t.id >= NetIds.U16 || t.path == "" || t.owner < 0 || t.version == 0 || t.version >= U32
  }

  /** Whether a report replaces what the books have: it's newer than the record of its id, and than the one of its
      path. */
  predicate Replaces(b: Books, t: Told) {
    && (t.id in b.records ==> SerialNewer(t.version, b.records[t.id].hold.version))
    && (t.path in b.ids && b.ids[t.path] != t.id && b.ids[t.path] in b.records ==>
          SerialNewer(t.version, b.records[b.ids[t.path]].hold.version))
  }

  function MergedRecord(b: Books, t: Told): Listing
    requires !IsMalformed(t)
  {
    Listing(t.path, Hold(t.owner, t.version, 0, None, 0), HashOf(b, t.path, t.hash))
  }

  /** The part of handle_registry_report that merges an object while the registry takes over. */
  function Merge(b: Books, t: Told): Books {
    if IsMalformed(t) || !Replaces(b, t) then b
    else
      var records := if t.path in b.ids then b.records - ({b.ids[t.path]} - {t.id}) else b.records;
      var ids := if t.id in b.records then b.ids - {b.records[t.id].path} else b.ids;
      b.(records := records[t.id := MergedRecord(b, t)], ids := ids[t.path := t.id], highest := R.Max(b.highest, t.id))
  }

  /** The maps stay inverse whatever the reports say: ids and paths that contradict the books included. */
  lemma MergeKeeps(b: Books, t: Told)
    requires Valid(b)
    ensures Valid(Merge(b, t))
  {
    var b' := Merge(b, t);
    if t.id in b.records { assert Named(b, t.id); }
    forall id | id in b'.records ensures Named(b', id) {
      if id != t.id || b' == b { assert Named(b, id); }
    }
  }

  /** What is sent when a report replaces the records of its path and of its id: the transfers in progress of both don't
      happen. */
  function Replaced(b: Books, t: Told): seq<(Id, Out)> {
    (if t.path in b.ids && b.ids[t.path] != t.id then Called(b, b.ids[t.path]) else []) + Called(b, t.id)
  }

  function Called(b: Books, id: Id): seq<(Id, Out)> {
    if id in b.records && b.records[id].hold.pendingTo.Some?
    then Tagged(id, Deny(b.ready, b.records[id].hold.requester)) else []
  }

  /** The part of handle_registry_report that merges an object after the takeover. */
  function MergeLate(b: Books, t: Told): (Books, seq<(Id, Out)>) {
    if IsMalformed(t) || !Replaces(b, t) then (b, [])
    else
      var m := Merge(b, t);
      var a := ToldAgain(m, t);
      (Apply(m, t.id, a).(next := if t.id >= b.next then NetIds.After(t.id) else b.next),
       Replaced(b, t) + Tagged(t.id, a.outs))
  }

  /** What a late report says of the highest id: it isn't given to another object either. */
  function LateHeader(b: Books, highest: Id): Books
    requires b.highest < NetIds.U16 && highest < NetIds.U16
  {
    var most := R.Max(b.highest, highest);
    b.(highest := most, next := if most >= b.next then NetIds.After(most) else b.next)
  }

  /** The objects of a late report, one after the other, and what is sent. */
  function MergeLateAll(b: Books, ts: seq<Told>): (Books, seq<(Id, Out)>)
    decreases |ts|
  {
    if ts == [] then (b, [])
    else
      var (m, told) := MergeLateAll(b, ts[..|ts| - 1]);
      var (m', more) := MergeLate(m, ts[|ts| - 1]);
      (m', told + more)
  }

  function ToldAgain(b: Books, t: Told): Answer
    requires t.owner >= 0 && t.id in b.records && b.records[t.id].hold.Valid()
  {
    ChangeOwner(b.records[t.id].hold, if t.owner > 0 && t.owner !in b.ready then 0 else t.owner, b.ready)
  }

  /** What a late report says of an object is announced to everyone as newer than what the books and the report had,
      under its owner, or nobody if it left; and no other path's object changes. */
  lemma LateReportIsAnnounced(b: Books, t: Told)
    requires Valid(b) && !IsMalformed(t) && Replaces(b, t)
    ensures var (b', told) := MergeLate(b, t); var h := HoldOf(b', t.id);
      && Valid(b') && h.Some? && Announced(t, b.ready, h.value, told)
      && t.path in b'.ids && b'.ids[t.path] == t.id
      && (forall id :: id != t.id && id in b.records && b.records[id].path != t.path ==>
          HoldOf(b', id) == HoldOf(b, id))
  {
    var m := Merge(b, t);
    MergeKeeps(b, t);
    var a := ToldAgain(m, t);
    ApplyKeeps(m, t.id, a);
    NamesKept(Apply(m, t.id, a), MergeLate(b, t).0);
    ChangeIsAnnounced(t, b.ready, Replaced(b, t));
    OthersKept(b, t);
  }

  lemma OthersKept(b: Books, t: Told)
    requires Valid(b) && !IsMalformed(t) && Replaces(b, t)
    ensures var m := Merge(b, t);
      && t.id in m.records && m.records[t.id].hold == Hold(t.owner, t.version, 0, None, 0)
      && t.path in m.ids && m.ids[t.path] == t.id && m.ready == b.ready
      && forall id :: id != t.id && id in b.records && b.records[id].path != t.path ==> HoldOf(m, id) == HoldOf(b, id)
  {
    forall id | id in b.records && id != t.id && b.records[id].path != t.path
      ensures HoldOf(Merge(b, t), id) == HoldOf(b, id) {
      assert Named(b, id);
    }
  }

  ghost predicate Announced(t: Told, ready: set<Node>, h: Hold, told: seq<(Id, Out)>) {
    && SerialNewer(h.version, t.version) && (t.id, ToAll(Announce(h.owner, h.version))) in told
    && (h.owner == t.owner || (h.owner == 0 && t.owner !in ready))
  }

  lemma ChangeIsAnnounced(t: Told, ready: set<Node>, told: seq<(Id, Out)>)
    requires !IsMalformed(t)
    ensures var owner := if t.owner > 0 && t.owner !in ready then 0 else t.owner;
      var a := ChangeOwner(Hold(t.owner, t.version, 0, None, 0), owner, ready);
      Announced(t, ready, a.hold.value, told + Tagged(t.id, a.outs))
  {
    var owner := if t.owner > 0 && t.owner !in ready then 0 else t.owner;
    var a := ChangeOwner(Hold(t.owner, t.version, 0, None, 0), owner, ready);
    var all := told + Tagged(t.id, a.outs);
    assert a.outs == [ToAll(Announce(a.hold.value.owner, a.hold.value.version))];
    assert all[|all| - 1] == (t.id, a.outs[0]);
  }

  lemma NamesKept(b: Books, b': Books)
    requires Valid(b) && b' == b.(next := b'.next) && b'.next < NetIds.U16
    ensures Valid(b')
  {
    forall id | id in b'.records ensures Named(b', id) {
      assert Named(b, id);
    }
  }

  /** What an answer sends, each message with the object it is about. */
  function Tagged(id: Id, outs: seq<Out>): (r: seq<(Id, Out)>)
    ensures |r| == |outs|
  {
    seq(|outs|, i requires 0 <= i < |outs| => (id, outs[i]))
  }

  function MergeAll(b: Books, ts: seq<Told>): Books
    decreases |ts|
  {
    if ts == [] then b else Merge(MergeAll(b, ts[..|ts| - 1]), ts[|ts| - 1])
  }

  lemma {:induction false} MergeAllKeeps(b: Books, ts: seq<Told>)
    requires Valid(b)
    ensures Valid(MergeAll(b, ts))
    decreases |ts|
  {
    if ts != [] {
      MergeAllKeeps(b, ts[..|ts| - 1]);
      MergeKeeps(MergeAll(b, ts[..|ts| - 1]), ts[|ts| - 1]);
    }
  }

  // ---------------------------------------------------------------------------------------------------- Take over

  /** registry_take_over: the books start from the view of the registry's own node. */
  function TakeOver(b: Books, v: R.View): Books {
    b.(records := map id | id in v.entries :: CopyOf(b.objects, v.entries[id]), ids := v.ids, quarantined := map[],
       settling := true)
  }

  /** The record of an object, from a node's entry of it. */
  function CopyOf(objects: map<Path, nat>, e: R.NodeEntry): Listing {
    Listing(e.path, Hold(e.owner, e.version, 0, None, 0), if e.path in objects then objects[e.path] else e.hash)
  }

  lemma TakeOverKeeps(b: Books, v: R.View)
    requires b.next < NetIds.U16 && R.Valid(v) && R.Versioned(v) && 0 !in v.entries
    requires forall id :: id in v.entries ==> v.entries[id].version < U32
    ensures Valid(TakeOver(b, v))
  {
    var b' := TakeOver(b, v);
    forall id | id in b'.records ensures Named(b', id) {
      assert R.Named(v, id);
    }
  }

  /** The owner a record is announced again with: nobody, if its owner left. */
  function Remaining(b: Books, owner: Node): Node {
    if owner in b.ready then owner else 0
  }

  function AnnouncedAgain(b: Books, h: Hold): Answer
    requires h.Valid()
  {
    ChangeOwner(h, Remaining(b, h.owner), b.ready)
  }

  /** registry_finish_take_over: the next id is after every id any node heard of, and every record has a new version. */
  function Finish(b: Books): Books
    requires Valid(b)
  {
    b.(settling := false, next := NetIds.After(b.highest % NetIds.U16),
       records := map id | id in b.records ::
         b.records[id].(hold := AnnouncedAgain(b, b.records[id].hold).hold.value))
  }

  /** A node's report: the highest id it heard of, and its view of the objects. */
  datatype Report = Report(highest: Id, objects: seq<Told>)

  /** What is read of a report: it stops at its first malformed object. */
  function Sound(ts: seq<Told>): (r: seq<Told>)
    ensures r <= ts && (forall t :: t in r ==> !IsMalformed(t))
    ensures |r| < |ts| ==> IsMalformed(ts[|r|])
  {
    if ts == [] || IsMalformed(ts[0]) then [] else [ts[0]] + Sound(ts[1..])
  }

  /** handle_registry_report, while the registry takes over: the reports one after the other. */
  function MergeReports(b: Books, reports: seq<Report>): Books
    decreases |reports|
  {
    if reports == [] then b
    else
      var before, r := MergeReports(b, reports[..|reports| - 1]), reports[|reports| - 1];
      MergeAll(before.(highest := R.Max(before.highest, r.highest)), Sound(r.objects))
  }

  /** No id in the books is after the highest one they heard of. */
  ghost predicate Heard(b: Books) {
    forall id :: id in b.records ==> id <= b.highest
  }

  /** The next id is after every id any node heard of, short of the last one. */
  lemma NextIdIsNew(b: Books, reports: seq<Report>)
    requires Valid(b) && Heard(b)
    ensures Valid(MergeReports(b, reports)) && Heard(MergeReports(b, reports))
    ensures MergeReports(b, reports).highest < NetIds.U16 - 1 ==> IsNext(b, reports, Finish(MergeReports(b, reports)))
  {
    ReportsAreHeard(b, reports);
    var m := MergeReports(b, reports);
    if m.highest < NetIds.U16 - 1 { FinishNext(m); }
  }

  lemma FinishNext(b: Books)
    requires Valid(b) && b.highest < NetIds.U16 - 1
    ensures Finish(b).next == b.highest + 1 && Finish(b).records.Keys == b.records.Keys
  {
    assert b.highest % NetIds.U16 == b.highest;
  }

  ghost predicate IsNext(b: Books, reports: seq<Report>, after: Books) {
    && (forall r :: r in reports ==> r.highest < after.next)
    && (forall id :: id in after.records ==> id < after.next)
  }

  lemma {:induction false} ReportsAreHeard(b: Books, reports: seq<Report>)
    requires Valid(b) && Heard(b)
    ensures var m := MergeReports(b, reports);
      Valid(m) && Heard(m) && b.highest <= m.highest && forall r :: r in reports ==> r.highest <= m.highest
    decreases |reports|
  {
    if reports != [] {
      var before, r := reports[..|reports| - 1], reports[|reports| - 1];
      assert reports == before + [r];
      ReportsAreHeard(b, before);
      var m := MergeReports(b, before);
      var m' := m.(highest := R.Max(m.highest, r.highest));
      forall id | id in m'.records ensures Named(m', id) {
        assert Named(m, id);
      }
      ObjectsAreHeard(m', Sound(r.objects));
    }
  }

  lemma {:induction false} ObjectsAreHeard(b: Books, ts: seq<Told>)
    requires Valid(b) && Heard(b)
    ensures Valid(MergeAll(b, ts)) && Heard(MergeAll(b, ts)) && b.highest <= MergeAll(b, ts).highest
    decreases |ts|
  {
    if ts != [] {
      ObjectsAreHeard(b, ts[..|ts| - 1]);
      MergeKeeps(MergeAll(b, ts[..|ts| - 1]), ts[|ts| - 1]);
    }
  }

  lemma FinishKeeps(b: Books)
    requires Valid(b)
    ensures Valid(Finish(b))
    ensures forall id ::
      HoldOf(Finish(b), id) == if id in b.records then AnnouncedAgain(b, b.records[id].hold).hold else None
  {
    var b' := Finish(b);
    forall id | id in b'.records ensures Named(b', id) {
      assert Named(b, id);
    }
  }
}
