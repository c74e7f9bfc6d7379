/** What a registry that takes over ends with after it merged every node's view: who has each path, when it depends on
    the order of the reports, and that nothing is lost. */
module Merging {
  import opened Frames
  import opened Snapshots
  import opened Ownership
  import opened Registrar

  /** The number each version on the wire stands for, of each path. Only versions of one path are ever compared. */
  type Counts = Path -> map<nat, nat>

  /** The versions of each path are within a serial window of each other; those of different paths may be anywhere. */
  ghost predicate Window(counts: Counts) {
    forall path, v :: v in counts(path) ==> Stands(counts, path, v) && InWindow(counts, path, v)
  }

  predicate Stands(counts: Counts, path: Path, v: nat)
    requires v in counts(path)
  {
    0 < counts(path)[v] && v == Serial(counts(path)[v])
  }

  ghost predicate InWindow(counts: Counts, path: Path, v: nat)
    requires v in counts(path)
  {
    forall u :: u in counts(path) ==> counts(path)[v] - counts(path)[u] < MAX_SERIAL_JUMP - 1
  }

  lemma NewerIsHigher(counts: Counts, path: Path, v: nat, u: nat)
    requires Window(counts) && v in counts(path) && u in counts(path)
    ensures SerialNewer(v, u) <==> counts(path)[u] < counts(path)[v]
    ensures v == u <==> counts(path)[u] == counts(path)[v]
  {
    assert Stands(counts, path, v) && Stands(counts, path, u);
    assert InWindow(counts, path, v) && InWindow(counts, path, u);
    SerialNewerIsOrder(counts(path)[v], counts(path)[u]);
  }

  /** Reports, and books, in which each id names one path; two ids may name the same one. Their versions are in the
      window. */
  ghost predicate Fits(t: Told, names: map<Id, Path>, counts: Counts) {
    !IsMalformed(t) && t.id in names && names[t.id] == t.path && t.version in counts(t.path)
  }

  ghost predicate AllFit(ts: seq<Told>, names: map<Id, Path>, counts: Counts) {
    forall t :: t in ts ==> Fits(t, names, counts)
  }

  ghost predicate BooksFit(b: Books, names: map<Id, Path>, counts: Counts) {
    forall id :: id in b.records ==> RecordFits(b, id, names, counts)
  }

  predicate RecordFits(b: Books, id: Id, names: map<Id, Path>, counts: Counts)
    requires id in b.records
  {
    id in names && names[id] == b.records[id].path && b.records[id].hold.version in counts(b.records[id].path)
  }

  /** What everything below is about. */
  ghost predicate AllNamed(b: Books, ts: seq<Told>, names: map<Id, Path>, counts: Counts) {
    Valid(b) && Window(counts) && BooksFit(b, names, counts) && AllFit(ts, names, counts)
  }

  // ------------------------------------------------------------------------------------------------- Path by path

  /** Who has a path. */
  datatype Holder = Holder(id: Id, hold: Hold)

  function HolderOf(b: Books, path: Path): Option<Holder> {
    if path in b.ids && b.ids[path] in b.records then Some(Holder(b.ids[path], b.records[b.ids[path]].hold)) else None
  }

  function HolderToldOf(t: Told): Holder
    requires !IsMalformed(t)
  {
    Holder(t.id, Hold(t.owner, t.version, 0, None, 0))
  }

  ghost predicate IsOlder(h: Option<Holder>, t: Told, counts: Counts) {
    h.Some? ==>
      var counted := counts(t.path);
      h.value.hold.version in counted && t.version in counted && counted[h.value.hold.version] < counted[t.version]
  }

  /** Merging a report gives its path to what it says if that is newer, and leaves the other paths. */
  lemma MergeIsByPath(b: Books, t: Told, names: map<Id, Path>, counts: Counts)
    requires AllNamed(b, [t], names, counts) && Fits(t, names, counts)
    ensures AllNamed(Merge(b, t), [], names, counts)
    ensures HolderOf(Merge(b, t), t.path) ==
      if IsOlder(HolderOf(b, t.path), t, counts) then Some(HolderToldOf(t)) else HolderOf(b, t.path)
    ensures forall path :: path != t.path ==> HolderOf(Merge(b, t), path) == HolderOf(b, path)
  {
    MergeKeeps(b, t);
    MergedFits(b, t, names, counts);
    ReplacesIfNewer(b, t, names, counts);
    forall path | path != t.path ensures HolderOf(Merge(b, t), path) == HolderOf(b, path) {
      OtherPathsStay(b, t, names, counts, path);
    }
  }

  lemma MergedFits(b: Books, t: Told, names: map<Id, Path>, counts: Counts)
    requires BooksFit(b, names, counts) && Fits(t, names, counts)
    ensures BooksFit(Merge(b, t), names, counts)
  {
    var b' := Merge(b, t);
    forall id | id in b'.records ensures RecordFits(b', id, names, counts) {
      if id in b.records { assert RecordFits(b, id, names, counts); }
    }
  }

  lemma ReplacesIfNewer(b: Books, t: Told, names: map<Id, Path>, counts: Counts)
    requires AllNamed(b, [t], names, counts) && Fits(t, names, counts)
    ensures Replaces(b, t) <==> IsOlder(HolderOf(b, t.path), t, counts)
  {
    if t.id in b.records {
      assert Named(b, t.id) && RecordFits(b, t.id, names, counts);
    }
    if t.path in b.ids {
      var id := b.ids[t.path];
      assert RecordFits(b, id, names, counts);
      NewerIsHigher(counts, t.path, t.version, b.records[id].hold.version);
    }
  }

  lemma OtherPathsStay(b: Books, t: Told, names: map<Id, Path>, counts: Counts, path: Path)
    requires Valid(b) && BooksFit(b, names, counts) && Fits(t, names, counts) && path != t.path
    ensures HolderOf(Merge(b, t), path) == HolderOf(b, path)
  {
    if t.id in b.records { assert RecordFits(b, t.id, names, counts); }
    if path in b.ids { assert RecordFits(b, b.ids[path], names, counts); }
  }

  // ---------------------------------------------------------------------------------------------------- All of them

  /** A report of a path that is newer than the books, and no older than any other. */
  ghost predicate IsTop(b: Books, ts: seq<Told>, counts: Counts, t: Told) {
    t in ts && IsOlder(HolderOf(b, t.path), t, counts) && IsHighest(ts, counts, t)
  }

  ghost predicate IsHighest(ts: seq<Told>, counts: Counts, t: Told) {
    var counted := counts(t.path);
    forall u :: u in ts && u.path == t.path ==>
      u.version in counted && t.version in counted && counted[u.version] <= counted[t.version]
  }

  /** The books' own holder of a path, when no report of it is newer. */
  ghost predicate IsKept(b: Books, ts: seq<Told>, counts: Counts, path: Path) {
    forall t :: t in ts && t.path == path ==> HolderOf(b, path).Some? && !IsOlder(HolderOf(b, path), t, counts)
  }

  /** What a path ends with: what the newest of its reports says, or what the books had. */
  ghost predicate IsNewest(b: Books, ts: seq<Told>, counts: Counts, path: Path, h: Option<Holder>) {
    || (IsKept(b, ts, counts, path) && h == HolderOf(b, path))
    || (exists t :: IsTop(b, ts, counts, t) && !IsMalformed(t) && t.path == path && h == Some(HolderToldOf(t)))
  }

  /** The merge gives each path to the newest report of it, whatever the order; the books' own holder wins ties. */
  lemma {:induction false} MergedIsNewest(b: Books, ts: seq<Told>, names: map<Id, Path>, counts: Counts, path: Path)
    requires AllNamed(b, ts, names, counts)
    ensures AllNamed(MergeAll(b, ts), [], names, counts)
    ensures IsNewest(b, ts, counts, path, HolderOf(MergeAll(b, ts), path))
    decreases |ts|
  {
    if ts != [] {
      var before, t := ts[..|ts| - 1], ts[|ts| - 1];
      assert ts == before + [t];
      MergedIsNewest(b, before, names, counts, path);
      MergeIsByPath(MergeAll(b, before), t, names, counts);
      OneMore(b, before, t, HolderOf(MergeAll(b, before), path), names, counts, path);
    }
  }

  lemma OneMore(b: Books, ts: seq<Told>, t: Told, h: Option<Holder>, names: map<Id, Path>, counts: Counts, path: Path)
    requires AllNamed(b, ts, names, counts) && Fits(t, names, counts) && IsNewest(b, ts, counts, path, h)
    ensures IsNewest(b, ts + [t], counts, path,
                     if t.path == path && IsOlder(h, t, counts) then Some(HolderToldOf(t)) else h)
  {
    assert t in ts + [t];
    if path in b.ids { assert RecordFits(b, b.ids[path], names, counts); }
    if IsKept(b, ts, counts, path) && h == HolderOf(b, path) {
      if t.path == path && IsOlder(h, t, counts) {
        forall u | u in ts + [t] && u.path == path
          ensures u.version in counts(path) && counts(path)[u.version] <= counts(path)[t.version] {}
        assert IsTop(b, ts + [t], counts, t);
      }
    } else {
      var top :| IsTop(b, ts, counts, top) && !IsMalformed(top) && top.path == path && h == Some(HolderToldOf(top));
      if t.path == path && IsOlder(h, t, counts) {
        assert IsTop(b, ts + [t], counts, t);
      } else {
        assert top in ts + [t] && IsTop(b, ts + [t], counts, top);
      }
    }
  }

  // ------------------------------------------------------------------------------------------------------- Order

  ghost predicate SameReports(xs: seq<Told>, ys: seq<Told>) {
    forall t :: t in xs <==> t in ys
  }

  /** Books with the same names, owners and versions. */
  ghost predicate SameBooks(x: Books, y: Books) {
    x.ids == y.ids && forall id :: HoldOf(x, id) == HoldOf(y, id)
  }

  lemma SameHolders(x: Books, y: Books)
    requires Valid(x) && Valid(y)
    ensures SameBooks(x, y) <==> forall path :: HolderOf(x, path) == HolderOf(y, path)
  {
    if forall path :: HolderOf(x, path) == HolderOf(y, path) {
      forall path ensures (path in x.ids <==> path in y.ids) && (path in x.ids ==> x.ids[path] == y.ids[path]) {
        assert HolderOf(x, path) == HolderOf(y, path);
      }
      forall id ensures HoldOf(x, id) == HoldOf(y, id) {
        if id in x.records {
          assert Named(x, id) && HolderOf(x, x.records[id].path) == HolderOf(y, x.records[id].path);
        }
        if id in y.records {
          assert Named(y, id) && HolderOf(x, y.records[id].path) == HolderOf(y, y.records[id].path);
        }
      }
    }
    if SameBooks(x, y) {
      forall path ensures HolderOf(x, path) == HolderOf(y, path) {
        if path in x.ids { assert HoldOf(x, x.ids[path]) == HoldOf(y, x.ids[path]); }
      }
    }
  }

  /** For each path, the newest reports say the same: the same id, with the same owner. */
  ghost predicate TopsAgree(b: Books, ts: seq<Told>, counts: Counts) {
    forall x, y :: IsTop(b, ts, counts, x) && IsTop(b, ts, counts, y) && x.path == y.path ==>
      x.id == y.id && x.owner == y.owner
  }

  /** Then the merge is independent of the order of the reports, and of repeats. */
  lemma MergeInAnyOrder(b: Books, xs: seq<Told>, ys: seq<Told>, names: map<Id, Path>, counts: Counts)
    requires AllNamed(b, xs, names, counts) && SameReports(xs, ys) && TopsAgree(b, xs, counts)
    ensures SameBooks(MergeAll(b, xs), MergeAll(b, ys))
  {
    MergedIsNewest(b, xs, names, counts, "");
    MergedIsNewest(b, ys, names, counts, "");
    forall path ensures HolderOf(MergeAll(b, xs), path) == HolderOf(MergeAll(b, ys), path) {
      MergedIsNewest(b, xs, names, counts, path);
      MergedIsNewest(b, ys, names, counts, path);
      NewestIsUnique(b, xs, ys, names, counts, path, HolderOf(MergeAll(b, xs), path), HolderOf(MergeAll(b, ys), path));
    }
    SameHolders(MergeAll(b, xs), MergeAll(b, ys));
  }

  lemma NewestIsUnique(b: Books, xs: seq<Told>, ys: seq<Told>, names: map<Id, Path>, counts: Counts,
                       path: Path, h: Option<Holder>, k: Option<Holder>)
    requires AllNamed(b, xs, names, counts) && SameReports(xs, ys) && TopsAgree(b, xs, counts)
    requires IsNewest(b, xs, counts, path, h) && IsNewest(b, ys, counts, path, k)
    ensures h == k
  {
    if !IsKept(b, xs, counts, path) {
      var x :| IsTop(b, xs, counts, x) && !IsMalformed(x) && x.path == path && h == Some(HolderToldOf(x));
      assert !IsKept(b, ys, counts, path);
      var y :| IsTop(b, ys, counts, y) && !IsMalformed(y) && y.path == path && k == Some(HolderToldOf(y));
      assert IsTop(b, xs, counts, y);
      NewerIsHigher(counts, x.path, x.version, y.version);
    }
  }

  /** A report that is at the top, and first, is what its path ends with. */
  lemma {:induction false} FirstTopStays(b: Books, ts: seq<Told>, names: map<Id, Path>, counts: Counts)
    requires AllNamed(b, ts, names, counts) && ts != [] && IsTop(b, ts, counts, ts[0])
    ensures !IsMalformed(ts[0]) && HolderOf(MergeAll(b, ts), ts[0].path) == Some(HolderToldOf(ts[0]))
    decreases |ts|
  {
    var before, t := ts[..|ts| - 1], ts[|ts| - 1];
    assert t in ts && ts[0] in ts;
    MergedIsNewest(b, before, names, counts, "");
    MergeIsByPath(MergeAll(b, before), t, names, counts);
    if |ts| > 1 {
      assert before[0] in before;
      FirstTopStays(b, before, names, counts);
    } else {
      assert before == [];
    }
  }

  function ToFront(ts: seq<Told>, i: nat): seq<Told>
    requires i < |ts|
  {
    [ts[i]] + (ts[..i] + ts[i + 1..])
  }

  lemma ToFrontPermutes(ts: seq<Told>, i: nat)
    requires i < |ts|
    ensures multiset(ToFront(ts, i)) == multiset(ts) && SameReports(ToFront(ts, i), ts)
  {
    assert ts == ts[..i] + [ts[i]] + ts[i + 1..];
    assert forall t :: t in ts <==> t in multiset(ts);
    assert forall t :: t in ToFront(ts, i) <==> t in multiset(ToFront(ts, i));
  }

  /** Every order gives the same books. */
  ghost predicate AnyOrderIsSame(b: Books, ts: seq<Told>) {
    forall ys :: multiset(ys) == multiset(ts) ==> SameBooks(MergeAll(b, ts), MergeAll(b, ys))
  }

  /** The order of the reports doesn't matter if and only if, for each path, all the reports of its newest version, when
      it is newer than the books', agree on the id and the owner. */
  lemma OrderMattersExactly(b: Books, ts: seq<Told>, names: map<Id, Path>, counts: Counts)
    requires AllNamed(b, ts, names, counts)
    ensures AnyOrderIsSame(b, ts) <==> TopsAgree(b, ts, counts)
  {
    if TopsAgree(b, ts, counts) {
      forall ys | multiset(ys) == multiset(ts) ensures SameBooks(MergeAll(b, ts), MergeAll(b, ys)) {
        PermutationIsSame(ts, ys);
        MergeInAnyOrder(b, ts, ys, names, counts);
      }
    } else {
      var x, y :| IsTop(b, ts, counts, x) && IsTop(b, ts, counts, y) && x.path == y.path
        && (x.id != y.id || x.owner != y.owner);
      FrontDecides(b, ts, x, names, counts);
      FrontDecides(b, ts, y, names, counts);
    }
  }

  lemma PermutationIsSame(xs: seq<Told>, ys: seq<Told>)
    requires multiset(xs) == multiset(ys)
    ensures SameReports(xs, ys)
  {
    assert forall t :: t in xs <==> t in multiset(xs);
    assert forall t :: t in ys <==> t in multiset(ys);
  }

  /** With a report at the top put first, its path is its. */
  lemma FrontDecides(b: Books, ts: seq<Told>, x: Told, names: map<Id, Path>, counts: Counts)
    requires AllNamed(b, ts, names, counts) && IsTop(b, ts, counts, x)
    ensures !IsMalformed(x)
    ensures AnyOrderIsSame(b, ts) ==> HolderOf(MergeAll(b, ts), x.path) == Some(HolderToldOf(x))
  {
    var i :| 0 <= i < |ts| && ts[i] == x;
    var ys := ToFront(ts, i);
    ToFrontPermutes(ts, i);
    FirstTopStays(b, ys, names, counts);
    MergedIsNewest(b, ts, names, counts, "");
    MergedIsNewest(b, ys, names, counts, "");
    SameHolders(MergeAll(b, ts), MergeAll(b, ys));
  }

  /** With an id that names two paths there's no such condition: here both paths have one newest report each, and the
      second id gives up the path that it took from the first one only if the books had it take that path before. */
  lemma MergeOfConflictsDependsOnOrder()
    ensures var b := Books({}, {}, map[], map[], map[], map[], 1, 0, true);
      var x, y, z := Told(1, "p", 1, 5, 0), Told(2, "p", 1, 7, 0), Told(2, "q", 1, 8, 0);
      && Valid(b) && 1 !in MergeAll(b, [x, y, z]).records && 1 in MergeAll(b, [x, z, y]).records
  {
    var b := Books({}, {}, map[], map[], map[], map[], 1, 0, true);
    var x, y, z := Told(1, "p", 1, 5, 0), Told(2, "p", 1, 7, 0), Told(2, "q", 1, 8, 0);
    assert SerialNewer(7, 5) && SerialNewer(8, 7) && !SerialNewer(7, 8);
    assert "p" != "q" by { assert "p"[0] != "q"[0]; }
    InTurn(b, x, y, z);
    InTurn(b, x, z, y);
    var bx := Merge(b, x);
    assert bx.records.Keys == {1};
    assert Merge(bx, y).records.Keys == {2};
    assert Merge(bx, z).records.Keys == {1, 2};
  }

  lemma InTurn(b: Books, x: Told, y: Told, z: Told)
    ensures MergeAll(b, [x, y, z]) == Merge(Merge(Merge(b, x), y), z)
  {
    assert [x, y, z][..2] == [x, y] && [x, y][..1] == [x] && [x][..0] == [];
    assert MergeAll(b, [x]) == Merge(b, x) && MergeAll(b, [x, y]) == Merge(Merge(b, x), y);
  }

  // --------------------------------------------------------------------------------------------------- Take over

  /** The takeover loses nothing: every path any node reported is in the books, with a version newer than any node had
      of it, under the owner of the newest one, or nobody if that owner left. */
  lemma TakeOverLosesNothing(b: Books, ts: seq<Told>, t: Told, names: map<Id, Path>, counts: Counts)
    requires AllNamed(b, ts, names, counts) && t in ts
    ensures var m := MergeAll(b, ts); var h := HolderOf(m, t.path);
      && Valid(m) && h.Some? && IsNewest(b, ts, counts, t.path, h) && h.value.id in Finish(m).records
      && (var f := Finish(m).records[h.value.id];
          && f.path == t.path && SerialNewer(f.hold.version, t.version)
          && SerialNewer(f.hold.version, h.value.hold.version)
          && f.hold.owner == (if h.value.hold.owner in m.ready then h.value.hold.owner else 0))
  {
    MergedIsNewest(b, ts, names, counts, t.path);
    var m := MergeAll(b, ts);
    var h := HolderOf(m, t.path);
    assert RecordFits(m, h.value.id, names, counts);
    NoNewer(b, ts, t, h.value, names, counts);
    NextIsNewer(counts, t.path, h.value.hold.version, t.version);
    NextIsNewer(counts, t.path, h.value.hold.version, h.value.hold.version);
  }

  lemma NoNewer(b: Books, ts: seq<Told>, t: Told, h: Holder, names: map<Id, Path>, counts: Counts)
    requires AllNamed(b, ts, names, counts) && t in ts && IsNewest(b, ts, counts, t.path, Some(h))
    ensures var counted := counts(t.path);
      t.version in counted && h.hold.version in counted && counted[t.version] <= counted[h.hold.version]
  {
    assert Fits(t, names, counts);
    if t.path in b.ids { assert RecordFits(b, b.ids[t.path], names, counts); }
  }

  lemma NextIsNewer(counts: Counts, path: Path, v: nat, u: nat)
    requires Window(counts) && v in counts(path) && u in counts(path) && counts(path)[u] <= counts(path)[v]
    ensures v < U32 && SerialNewer(NextSerial(v), u)
  {
    var k := counts(path)[v];
    assert Stands(counts, path, v) && Stands(counts, path, u) && InWindow(counts, path, v);
    assert Serial(k + 1) == NextSerial(Serial(k));
    SerialNewerIsOrder(k + 1, counts(path)[u]);
  }
}
