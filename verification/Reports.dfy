/** What a report changes in the registry's books, told from what it says; and what a registry that takes over starts
    from. */
module Reports {
  import opened Frames
  import opened Snapshots
  import opened Ownership
  import opened Registrar
  import NetIds
  import R = Replicas

  predicate IsWellFormed(t: Told) {
    0 < t.id < 65536 && t.path != "" && t.owner >= 0 && 0 < t.version < 0x1_0000_0000
  }

  predicate IsNewer(b: Books, t: Told, id: Id) {
    id in b.records ==> SerialNewer(t.version, b.records[id].hold.version)
  }

  /** A report is taken when it's well formed, and newer than the records of its id and of its path. */
  predicate IsTaken(b: Books, t: Told) {
    IsWellFormed(t) && IsNewer(b, t, t.id) && (t.path in b.ids ==> IsNewer(b, t, b.ids[t.path]))
  }

  /** The variables and codecs the registry knows of an object: its own object's, if it has one. */
  function Schema(objects: map<Path, nat>, path: Path, told: nat): nat {
    if path in objects then objects[path] else told
  }

  function Highest(a: nat, b: nat): nat {
    if a < b then b else a
  }

  /** What a report leaves: its object, as it says; of the others, only who had its path is gone. */
  lemma ReportIsWritten(b: Books, t: Told, id: Id)
    requires Valid(b)
    ensures !IsTaken(b, t) ==> Merge(b, t) == b && MergeLate(b, t) == (b, [])
    ensures IsTaken(b, t) ==>
      var b' := Merge(b, t);
      && b' == b.(records := b'.records, ids := b'.ids, highest := Highest(b.highest, t.id))
      && t.id in b'.records && t.path in b'.ids && b'.ids[t.path] == t.id
      && b'.records[t.id] == Listing(t.path, Hold(t.owner, t.version, 0, None, 0), Schema(b.objects, t.path, t.hash))
      && (id != t.id ==> (id in b'.records <==> id in b.records && b.records[id].path != t.path)
                         && (id in b'.records ==> b'.records[id] == b.records[id]))
  {
    if t.id in b.records { assert Named(b, t.id); }
    if id in b.records { assert Named(b, id); }
  }

  /** Whether a record that a report replaces has a transfer in progress whose asker has to be told. */
  predicate IsInterrupted(b: Books, t: Told, id: Id) {
    && (id == t.id || (t.path in b.ids && b.ids[t.path] == id)) && id in b.records
    && b.records[id].hold.pendingTo.Some? && b.records[id].hold.requester > 0 && b.records[id].hold.requester in b.ready
  }

  /** What's told of a report that's taken: a denial to who asked for each object it interrupts, once, and nothing
      else. */
  lemma InterruptedAreDenied(b: Books, t: Told, id: Id, o: Out)
    ensures (id, o) in Replaced(b, t) <==> IsInterrupted(b, t, id) && o == To(b.records[id].hold.requester, Denied)
    ensures forall i, j :: 0 <= i < j < |Replaced(b, t)| ==> Replaced(b, t)[i].0 != Replaced(b, t)[j].0
  {
    CalledIs(b, t.id);
    if t.path in b.ids { CalledIs(b, b.ids[t.path]); }
  }

  lemma CalledIs(b: Books, id: Id)
    ensures Called(b, id) ==
      if id in b.records && b.records[id].hold.pendingTo.Some? && b.records[id].hold.requester > 0
         && b.records[id].hold.requester in b.ready
      then [(id, To(b.records[id].hold.requester, Denied))] else []
  {}

  /** After the takeover a report is announced as it comes: with a new version, without an owner that left. Its id isn't
      given to another object. */
  lemma LateReportIsWritten(b: Books, t: Told, id: Id)
    requires Valid(b) && IsTaken(b, t)
    ensures var (b', told) := MergeLate(b, t); var owner := if t.owner in b.ready then t.owner else 0;
      && t.id in b'.records && b'.records[t.id].path == t.path
      && b'.records[t.id].hash == Schema(b.objects, t.path, t.hash)
      && b'.records[t.id].hold == Hold(owner, NextSerial(t.version), if owner == t.owner then t.version else 0, None, 0)
      && told == Replaced(b, t) + [(t.id, ToAll(Announce(owner, NextSerial(t.version))))]
      && (id != t.id && id in b'.records ==> id in b.records && b'.records[id] == b.records[id])
      && b'.next == (if t.id < b.next then b.next else if t.id == 65535 then 0 else t.id + 1)
      && b'.highest == Highest(b.highest, t.id)
  {
    ReportIsWritten(b, t, t.id);
    ReportIsWritten(b, t, id);
    var m := Merge(b, t);
    var a := ToldAgain(m, t);
    assert a.outs == [ToAll(Announce(a.hold.value.owner, a.hold.value.version))];
    assert Tagged(t.id, a.outs) == [(t.id, a.outs[0])];
  }

  /** A late report's header moves the ids to give past the highest one its node heard of. */
  lemma LateHeaderIsWritten(b: Books, highest: Id)
    requires b.highest < 65536 && highest < 65536
    ensures var b' := LateHeader(b, highest); var most := Highest(b.highest, highest);
      b' == b.(highest := most, next := if most < b.next then b.next else if most == 65535 then 0 else most + 1)
  {}

  function Known(b: Books, e: R.NodeEntry): Listing {
    Listing(e.path, Hold(e.owner, e.version, 0, None, 0), Schema(b.objects, e.path, e.hash))
  }

  /** The objects of a late report count one after the other, each for the books that the ones before it left. */
  lemma ReportsCountInTurn(b: Books, ts: seq<Told>, t: Told)
    ensures MergeLateAll(b, []) == (b, [])
    ensures var (m, told) := MergeLateAll(b, ts); var (m', more) := MergeLate(m, t);
      MergeLateAll(b, ts + [t]) == (m', told + more)
  {
    assert (ts + [t])[..|ts|] == ts;
  }

  /** The books of a registry that takes over are its node's view: each object with the owner and the version it knew,
      and no transfer in progress. */
  lemma TakeOverIsWritten(b: Books, v: R.View, id: Id)
    ensures var b' := TakeOver(b, v);
      && b' == b.(records := b'.records, ids := v.ids, quarantined := map[], settling := true)
      && (id in b'.records <==> id in v.entries)
      && (id in v.entries ==> b'.records[id] == Known(b, v.entries[id]))
  {}

  ghost predicate IsAnnouncedAgain(b: Books, after: Listing, before: Listing)
    requires before.hold.Valid()
  {
    var h := before.hold;
    var owner := if h.owner in b.ready then h.owner else 0;
    && after.path == before.path && after.hash == before.hash
    && after.hold == Hold(owner, NextSerial(h.version), if owner == h.owner then h.version else 0, None, 0)
    && AnnouncedAgain(b, h).outs ==
         (if h.pendingTo.Some? && h.pendingTo != Some(owner) && h.requester > 0 && h.requester in b.ready
          then [To(h.requester, Denied)] else []) + [ToAll(Announce(owner, NextSerial(h.version)))]
  }

  /** A registry that took over announces every record with a new version, and no owner that isn't there. */
  lemma FinishIsWritten(b: Books, id: Id)
    requires Valid(b) && b.highest < 65536
    ensures var b' := Finish(b);
      && b' == b.(records := b'.records, settling := false, next := if b.highest == 65535 then 0 else b.highest + 1)
      && (id in b'.records <==> id in b.records)
      && (id in b.records ==> IsAnnouncedAgain(b, b'.records[id], b.records[id]))
  {
    assert b.highest % NetIds.U16 == b.highest;
  }

  /** All the objects of the reports, one after the other: of each, those before its first malformed one. */
  function AllObjects(reports: seq<Report>): seq<Told>
    decreases |reports|
  {
    if reports == [] then []
    else AllObjects(reports[..|reports| - 1]) + Sound(reports[|reports| - 1].objects)
  }

  lemma {:induction false} MergeAppends(b: Books, xs: seq<Told>, ys: seq<Told>)
    ensures MergeAll(b, xs + ys) == MergeAll(MergeAll(b, xs), ys)
    decreases |ys|
  {
    if ys == [] {
      assert xs + ys == xs;
    } else {
      MergeAppends(b, xs, ys[..|ys| - 1]);
      assert (xs + ys)[..|xs + ys| - 1] == xs + ys[..|ys| - 1];
    }
  }

  /** What the merges are of doesn't depend on the highest id heard of. */
  lemma {:induction false} HighestDoesntCount(b: Books, b': Books, ts: seq<Told>)
    requires b' == b.(highest := b'.highest)
    ensures var m, m' := MergeAll(b, ts), MergeAll(b', ts); m' == m.(highest := m'.highest)
    decreases |ts|
  {
    if ts != [] {
      HighestDoesntCount(b, b', ts[..|ts| - 1]);
    }
  }

  /** Several reports are merged as one list of all their objects, in order; the highest id is the highest any of them
      has. */
  lemma {:induction false} ReportsAreMerged(b: Books, reports: seq<Report>)
    ensures var m, all := MergeReports(b, reports), MergeAll(b, AllObjects(reports)); m == all.(highest := m.highest)
    decreases |reports|
  {
    if reports != [] {
      var before, r := reports[..|reports| - 1], reports[|reports| - 1];
      ReportsAreMerged(b, before);
      var m, all := MergeReports(b, before), MergeAll(b, AllObjects(before));
      HighestDoesntCount(all, m.(highest := R.Max(m.highest, r.highest)), Sound(r.objects));
      MergeAppends(b, AllObjects(before), Sound(r.objects));
    }
  }

  // ------------------------------------------------------------------------------------------------------- Schemas

  /** The registry's own objects are the reference: their records have their variables and codecs. */
  ghost predicate IsReference(b: Books) {
    forall id :: id in b.records && b.records[id].path in b.objects ==>
      b.records[id].hash == b.objects[b.records[id].path]
  }

  lemma {:induction false} MergeKeepsReference(b: Books, ts: seq<Told>)
    requires Valid(b) && IsReference(b)
    ensures Valid(MergeAll(b, ts)) && IsReference(MergeAll(b, ts)) && MergeAll(b, ts).objects == b.objects
    decreases |ts|
  {
    if ts != [] {
      var m, t := MergeAll(b, ts[..|ts| - 1]), ts[|ts| - 1];
      MergeKeepsReference(b, ts[..|ts| - 1]);
      MergeKeeps(m, t);
      forall id | id in Merge(m, t).records && Merge(m, t).records[id].path in m.objects
        ensures Merge(m, t).records[id].hash == m.objects[Merge(m, t).records[id].path]
      {
        ReportIsWritten(m, t, id);
      }
    }
  }

  /** Whatever the nodes report, a takeover ends with the registry's own objects as the reference. */
  lemma TakeOverKeepsReference(b: Books, v: R.View, ts: seq<Told>)
    requires b.next < NetIds.U16 && R.Valid(v) && R.Versioned(v) && 0 !in v.entries
    requires forall id :: id in v.entries ==> v.entries[id].version < U32
    requires MergeAll(TakeOver(b, v), ts).highest < 65536
    ensures Valid(MergeAll(TakeOver(b, v), ts)) && IsReference(Finish(MergeAll(TakeOver(b, v), ts)))
  {
    TakeOverKeeps(b, v);
    forall id | id in TakeOver(b, v).records && TakeOver(b, v).records[id].path in b.objects
      ensures TakeOver(b, v).records[id].hash == b.objects[TakeOver(b, v).records[id].path]
    {
      TakeOverIsWritten(b, v, id);
    }
    MergeKeepsReference(TakeOver(b, v), ts);
    var m := MergeAll(TakeOver(b, v), ts);
    forall id | id in Finish(m).records && Finish(m).records[id].path in m.objects
      ensures Finish(m).records[id].hash == m.objects[Finish(m).records[id].path]
    {
      FinishIsWritten(m, id);
    }
  }
}
