/** The snapshots a server sends a client: the entry of each object, a delta over a base frame, and how the entries are
    split in parts. */
module Snapshots {
  datatype Option<+T> = None | Some(value: T)

  /** A net id: 16 bits, 0 for "none". */
  type Id = nat

  /** A quantized value of a variable: the engines only compare values and copy them. */
  type Value = int

  /** The values of each object at a frame. */
  type States = map<Id, seq<Value>>

  /** A record of a ring of history: valid for `frame`, and for no frame at all with `None`. */
  datatype Record = Record(frame: Option<nat>, states: States)

  /** An object in a snapshot: unchanged from the base, or the variables that changed. */
  datatype Entry = Same(id: Id) | Delta(id: Id, vars: seq<Option<Value>>)

  /** A message: a whole snapshot, or one part of it. `truncated`: the data ends before its last object. */
  datatype Snapshot = Snapshot(full: bool, frame: nat, base: Option<nat>, part: nat, partCount: nat,
                               entries: seq<Entry>, truncated: bool)

  const MAX_PARTS: nat := 64

  function Get(m: States, id: Id): (r: Option<seq<Value>>) {
    if id in m then Some(m[id]) else None
  }

  // ---------------------------------------------------------------------------------------------------- Entries

  /** Whether a variable travels: there's no base, the base is shorter, or its value changed. */
  predicate Travels(values: seq<Value>, base: Option<seq<Value>>, i: nat)
    requires i < |values|
  {
    base.None? || i >= |base.value| || values[i] != base.value[i]
  }

  function EncodeVars(values: seq<Value>, base: Option<seq<Value>>): seq<Option<Value>> {
    seq(|values|, i requires 0 <= i < |values| => if Travels(values, base, i) then Some(values[i]) else None)
  }

  function EncodeEntry(id: Id, values: Option<seq<Value>>, base: Option<seq<Value>>): (e: Entry)
    ensures e.id == id
  {
    if values.None? || base == values then Same(id) else Delta(id, EncodeVars(values.value, base))
  }

  /** What the client reads of `n` variables over its own base: nothing if the data is too short, or a variable that
      didn't travel isn't in the base. */
  function DecodeVars(vars: seq<Option<Value>>, n: nat, base: Option<seq<Value>>): Option<seq<Value>> {
    if n <= |vars| && forall v :: 0 <= v < n && vars[v].None? ==> base.Some? && v < |base.value|
    then Some(seq(n, v requires 0 <= v < n =>
                    if vars[v].Some? then vars[v].value
                    else if base.Some? && v < |base.value| then base.value[v] else 0))
    else None
  }

  /** Decoding over the base the server used gives the values back; over any other base, what it gives is still the
      values wherever it agrees with the server's base. */
  lemma DecodeEncode(values: seq<Value>, serverBase: Option<seq<Value>>, clientBase: Option<seq<Value>>)
    requires clientBase.None? || clientBase == serverBase
    ensures var r := DecodeVars(EncodeVars(values, serverBase), |values|, clientBase);
      (r.Some? ==> r.value == values) &&
      (r.Some? <==> clientBase == serverBase || forall i: nat :: i < |values| ==> Travels(values, serverBase, i))
  {
    var vars := EncodeVars(values, serverBase);
    var r := DecodeVars(vars, |values|, clientBase);
    if r.Some? {
      assert forall v :: 0 <= v < |values| ==> r.value[v] == values[v];
    }
    if clientBase != serverBase && !(forall i: nat :: i < |values| ==> Travels(values, serverBase, i)) {
      var i: nat :| i < |values| && !Travels(values, serverBase, i);
      assert vars[i].None?;
    }
  }

  // ------------------------------------------------------------------------------------------ Reading the objects

  /** What reading a snapshot's objects changes: the states of the record, the ids written in it, and whether the state
      of a bound object is missing. */
  datatype Decoding = Decoding(states: States, written: seq<Id>, missing: bool)

  function ReadEntry(d: Decoding, e: Entry, base: States, bound: map<Id, nat>): Decoding {
    match e
    case Same(id) =>
      if id in base then Decoding(d.states[id := base[id]], d.written + [id], d.missing)
      else if id in bound then d.(missing := true)
      else d
    case Delta(id, vars) =>
      if id !in bound then d
      else
        match DecodeVars(vars, bound[id], Get(base, id))
        case Some(values) => Decoding(d.states[id := values], d.written + [id], d.missing)
        case None => Decoding(d.states - {id}, d.written, true)
  }

  function ReadEntries(d: Decoding, es: seq<Entry>, base: States, bound: map<Id, nat>): Decoding
    decreases |es|
  {
    if es == [] then d
    else ReadEntry(ReadEntries(d, es[..|es| - 1], base, bound), es[|es| - 1], base, bound)
  }

  function Ids(es: seq<Entry>): set<Id> {
    set e | e in es :: e.id
  }

  ghost predicate DistinctIds(es: seq<Entry>) {
    forall i, j :: 0 <= i < j < |es| ==> es[i].id != es[j].id
  }

  ghost predicate Distinct(s: seq<Id>) {
    forall i, j :: 0 <= i < j < |s| ==> s[i] != s[j]
  }

  function ToSet(s: seq<Id>): (r: set<Id>)
    ensures forall x :: x in s <==> x in r
  {
    set x | x in s
  }

  lemma {:induction false} DistinctCount(s: seq<Id>)
    requires Distinct(s)
    ensures |ToSet(s)| == |s|
  {
    if s != [] {
      var t := s[..|s| - 1];
      DistinctCount(t);
      assert s == t + [s[|s| - 1]];
      assert ToSet(s) == ToSet(t) + {s[|s| - 1]};
    }
  }

  /** The states of a finished record: the ones not written are stale (they were in the reused slot). The engine skips
      the search when the two counts are equal. */
  function DropStale(states: States, written: seq<Id>): States {
    if |states| == |written| then states else map id | id in states && id in written :: states[id]
  }

  /** With distinct written ids, all of them in the record, equal counts do mean there's nothing stale. */
  lemma DropStaleKeys(states: States, written: seq<Id>)
    requires Distinct(written) && ToSet(written) <= states.Keys
    ensures DropStale(states, written).Keys == ToSet(written)
  {
    DistinctCount(written);
    if |states| == |written| {
      SubsetSameSize(ToSet(written), states.Keys);
    }
  }

  lemma SubsetSameSize<T>(a: set<T>, b: set<T>)
    requires a <= b && |a| == |b|
    ensures a == b
  {
    assert b == a + (b - a);
    assert |b| == |a| + |b - a|;
  }

  /** Without distinct ids the shortcut would keep a stale object. */
  lemma DropStaleNeedsDistinct()
    ensures exists states: States, written: seq<Id> ::
      ToSet(written) <= states.Keys && DropStale(states, written).Keys != ToSet(written)
  {
    var states: States := map[1 := [10], 2 := [20]];
    var written: seq<Id> := [1, 1];
    assert |states| == |written| by { assert states.Keys == {1, 2}; }
    assert 2 in DropStale(states, written).Keys && 2 !in ToSet(written);
  }

  // ------------------------------------------------------------------------------------------------------- Parts

  /** Whether a part with these entries fits a datagram (its size depends on where each nested buffer is aligned). */
  type Fits = seq<Entry> -> bool

  /** Puts one entry in the last part, or in a new one when it's too big there. A full snapshot isn't split. */
  function AddEntry(parts: seq<seq<Entry>>, e: Entry, full: bool, fits: Fits): (r: seq<seq<Entry>>)
    requires |parts| > 0
  {
    var last := parts[|parts| - 1];
    if full || fits(last + [e]) || last == [] || |parts| >= MAX_PARTS
    then parts[|parts| - 1 := last + [e]]
    else parts + [[e]]
  }

  /** The parts of a snapshot; one empty part when it has no objects. */
  function Split(es: seq<Entry>, full: bool, fits: Fits): (parts: seq<seq<Entry>>)
    ensures |parts| > 0
    decreases |es|
  {
    if es == [] then [[]] else AddEntry(Split(es[..|es| - 1], full, fits), es[|es| - 1], full, fits)
  }

  function Flatten(parts: seq<seq<Entry>>): seq<Entry>
    decreases |parts|
  {
    if parts == [] then [] else Flatten(parts[..|parts| - 1]) + parts[|parts| - 1]
  }

  /** What a list of parts keeps while entries are added. */
  ghost predicate GoodParts(parts: seq<seq<Entry>>, full: bool, fits: Fits) {
    1 <= |parts| <= MAX_PARTS && (full ==> |parts| == 1) &&
    (!full ==> forall p :: 0 <= p < |parts| && p < MAX_PARTS - 1 ==> |parts[p]| <= 1 || fits(parts[p]))
  }

  lemma AddEntryAppends(parts: seq<seq<Entry>>, e: Entry, full: bool, fits: Fits)
    requires |parts| > 0
    ensures Flatten(AddEntry(parts, e, full, fits)) == Flatten(parts) + [e]
  {
    var last, init := parts[|parts| - 1], parts[..|parts| - 1];
    var after := AddEntry(parts, e, full, fits);
    if |after| == |parts| {
      assert after[..|after| - 1] == init;
      assert Flatten(after) == Flatten(init) + (last + [e]);
    } else {
      assert after[..|after| - 1] == parts;
    }
  }

  lemma AddEntryKeepsParts(parts: seq<seq<Entry>>, e: Entry, full: bool, fits: Fits)
    requires GoodParts(parts, full, fits)
    ensures GoodParts(AddEntry(parts, e, full, fits), full, fits)
  {}

  /** Split completeness: the parts, in order, are the entries in order, each once; there are at most 64 of them, and a
      full snapshot is one; every part but the last of 64 either fits a datagram or is a single entry. */
  lemma {:induction false} SplitComplete(es: seq<Entry>, full: bool, fits: Fits)
    ensures Flatten(Split(es, full, fits)) == es
    ensures GoodParts(Split(es, full, fits), full, fits)
    decreases |es|
  {
    if es == [] {
      assert Split(es, full, fits)[..0] == [];
    } else {
      var e, before := es[|es| - 1], Split(es[..|es| - 1], full, fits);
      SplitComplete(es[..|es| - 1], full, fits);
      AddEntryAppends(before, e, full, fits);
      AddEntryKeepsParts(before, e, full, fits);
      assert es == es[..|es| - 1] + [e];
    }
  }

  /** Where part `p` starts in the flat list of entries. */
  function PartStart(parts: seq<seq<Entry>>, p: nat): nat
    requires p <= |parts|
  {
    |Flatten(parts[..p])|
  }

  ghost predicate SliceAt(es: seq<Entry>, at: nat, x: seq<Entry>) {
    at + |x| <= |es| && es[at..at + |x|] == x
  }

  lemma {:induction false} PartIsSlice(parts: seq<seq<Entry>>, p: nat)
    requires p < |parts|
    ensures SliceAt(Flatten(parts), PartStart(parts, p), parts[p])
    ensures PartStart(parts, p + 1) == PartStart(parts, p) + |parts[p]|
    decreases |parts|
  {
    var init := parts[..|parts| - 1];
    assert parts[..p + 1][..p] == parts[..p];
    if p < |parts| - 1 {
      PartIsSlice(init, p);
      assert init[..p] == parts[..p] && init[..p + 1] == parts[..p + 1];
    } else {
      assert parts[..p] == init && parts[..p + 1] == parts;
    }
  }

  /** Two parts of a snapshot whose entries name distinct objects share no object. */
  lemma PartsAreDisjoint(parts: seq<seq<Entry>>, p: nat, q: nat)
    requires DistinctIds(Flatten(parts)) && p < q < |parts|
    ensures Ids(parts[p]) !! Ids(parts[q])
  {
    StartsAscend(parts, p + 1, q);
    PartIsSlice(parts, p);
    PartIsSlice(parts, q);
    SlicesAreDisjoint(Flatten(parts), PartStart(parts, p), parts[p], PartStart(parts, q), parts[q]);
  }

  lemma SlicesAreDisjoint(es: seq<Entry>, a: nat, x: seq<Entry>, b: nat, y: seq<Entry>)
    requires DistinctIds(es) && a + |x| <= b && SliceAt(es, a, x) && SliceAt(es, b, y)
    ensures Ids(x) !! Ids(y)
  {
    forall e, e' | e in x && e' in y ensures e.id != e'.id {
      var i :| 0 <= i < |x| && x[i] == e;
      var j :| 0 <= j < |y| && y[j] == e';
      assert x[i] == es[a + i] && y[j] == es[b + j];
    }
  }

  lemma SliceIsDistinct(es: seq<Entry>, a: nat, x: seq<Entry>)
    requires DistinctIds(es) && SliceAt(es, a, x)
    ensures DistinctIds(x)
  {
    forall i, j | 0 <= i < j < |x| ensures x[i].id != x[j].id {
      assert x[i] == es[a + i] && x[j] == es[a + j];
    }
  }

  lemma PartIsDistinct(parts: seq<seq<Entry>>, p: nat)
    requires DistinctIds(Flatten(parts)) && p < |parts|
    ensures DistinctIds(parts[p])
  {
    PartIsSlice(parts, p);
    SliceIsDistinct(Flatten(parts), PartStart(parts, p), parts[p]);
  }

  lemma {:induction false} StartsAscend(parts: seq<seq<Entry>>, p: nat, q: nat)
    requires p <= q <= |parts|
    ensures PartStart(parts, p) <= PartStart(parts, q)
    decreases q - p
  {
    if p < q {
      PartIsSlice(parts, q - 1);
      StartsAscend(parts, p, q - 1);
    }
  }

  /** Every entry is in some part. */
  lemma {:induction false} InSomePart(parts: seq<seq<Entry>>, e: Entry)
    requires e in Flatten(parts)
    ensures exists p :: 0 <= p < |parts| && e in parts[p]
    decreases |parts|
  {
    var init := parts[..|parts| - 1];
    if e in parts[|parts| - 1] {
    } else {
      InSomePart(init, e);
      var p :| 0 <= p < |init| && e in init[p];
      assert parts[p] == init[p];
    }
  }

  /** The objects of a snapshot, split: each is in some part, and in no two; no part repeats one. */
  ghost predicate PartitionsIds(parts: seq<seq<Entry>>, ids: set<Id>) {
    && (forall p :: 0 <= p < |parts| ==> DistinctIds(parts[p]) && Ids(parts[p]) <= ids)
    && (forall id :: id in ids ==> exists p :: 0 <= p < |parts| && id in Ids(parts[p]))
    && (forall p, q :: 0 <= p < q < |parts| ==> Ids(parts[p]) !! Ids(parts[q]))
  }

  lemma SplitPartitions(es: seq<Entry>, full: bool, fits: Fits)
    requires DistinctIds(es)
    ensures PartitionsIds(Split(es, full, fits), Ids(es))
  {
    var parts := Split(es, full, fits);
    SplitComplete(es, full, fits);
    forall p | 0 <= p < |parts| ensures DistinctIds(parts[p]) && Ids(parts[p]) <= Ids(es) {
      PartIsDistinct(parts, p);
      PartIsSlice(parts, p);
      SliceIds(es, PartStart(parts, p), parts[p]);
    }
    forall id | id in Ids(es) ensures exists p :: 0 <= p < |parts| && id in Ids(parts[p]) {
      var e :| e in es && e.id == id;
      InSomePart(parts, e);
      var p :| 0 <= p < |parts| && e in parts[p];
      assert id in Ids(parts[p]);
    }
    forall p, q | 0 <= p < q < |parts| ensures Ids(parts[p]) !! Ids(parts[q]) {
      PartsAreDisjoint(parts, p, q);
    }
  }

  lemma SliceIds(es: seq<Entry>, a: nat, x: seq<Entry>)
    requires SliceAt(es, a, x)
    ensures Ids(x) <= Ids(es) && forall e :: e in x ==> e in es
  {
    forall e | e in x ensures e in es {
      var i :| 0 <= i < |x| && x[i] == e;
      assert x[i] == es[a + i];
    }
  }
}
