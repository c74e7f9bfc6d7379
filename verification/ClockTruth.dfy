/** The clock against the true time of its master, over whole runs: what the estimate is worth, when a held timeline
    ends, which epoch counts, and that nothing wraps around. */
module ClockTruth {
  import opened Frames
  import opened Snapshots
  import opened Clock

  // -------------------------------------------------------------------------------------------------- True offsets

  /** A round trip to a master whose clock is `d` ahead: it wrote its time, at the local time `masterTime - d`, between
      the ping and the pong. */
  predicate IsTrue(a: Action, d: int) {
    a.Adds? ==> a.send <= a.masterTime - d <= a.receive
  }

  /** What drops the samples. */
  predicate DropsSamples(a: Action) {
    a.Holds? || a.SetsMaster? || a.Clears?
  }

  /** `ds[i]`: how far the master of the moment is ahead during action `i`. It's another one after its samples were
      dropped only. */
  ghost predicate Against(actions: seq<Action>, ds: seq<int>) {
    |ds| == |actions|
    && (forall i :: 0 <= i < |actions| ==> IsTrue(actions[i], ds[i]))
    && (forall i :: 0 < i < |actions| && ds[i] != ds[i - 1] ==> DropsSamples(actions[i]))
  }

  predicate IsTaken(c: Clock, a: Action) {
    a.Adds? && !c.master && a.send < MAX_TIME && a.receive < MAX_TIME && -MAX_TIME < a.masterTime - a.send < MAX_TIME
    && a.send <= a.receive
  }

  /** The round trips taken since the samples were dropped. */
  function Taken(maxSamples: nat, minSamples: nat, actions: seq<Action>): seq<Action>
    requires maxSamples > 0
    decreases |actions|
  {
    if actions == [] then []
    else
      var before, a := actions[..|actions| - 1], actions[|actions| - 1];
      var taken, c := Taken(maxSamples, minSamples, before), ActAll(Initial(maxSamples, minSamples), before);
      if IsTaken(c, a) then taken + [a]
      else if a.SetsMaster? || a.Clears? || (a.Holds? && !c.master) then []
      else taken
  }

  function SamplesOf(taken: seq<Action>): (r: seq<Sample>)
    requires forall a :: a in taken ==> a.Adds? && a.send <= a.receive
    ensures |r| == |taken|
  {
    seq(|taken|, i requires 0 <= i < |taken| => SampleOf(taken[i].send, taken[i].masterTime, taken[i].receive))
  }

  lemma {:induction false} TakenAreAdds(maxSamples: nat, minSamples: nat, actions: seq<Action>)
    requires maxSamples > 0
    ensures forall a :: a in Taken(maxSamples, minSamples, actions) ==> a.Adds? && a.send <= a.receive
    decreases |actions|
  {
    if actions != [] {
      TakenAreAdds(maxSamples, minSamples, actions[..|actions| - 1]);
    }
  }

  /** The clock's window after a run is of the round trips taken, and a master takes none. */
  lemma {:induction false} WindowIsOfTaken(maxSamples: nat, minSamples: nat, actions: seq<Action>)
    requires maxSamples > 0
    ensures var c, taken := ActAll(Initial(maxSamples, minSamples), actions), Taken(maxSamples, minSamples, actions);
      && (forall a :: a in taken ==> a.Adds? && a.send <= a.receive)
      && Window(c, SamplesOf(taken)) && c.maxSamples == maxSamples && c.minSamples == minSamples
      && (c.master ==> taken == []) && (taken != [] ==> IsBestOfLast(c, SamplesOf(taken)))
    decreases |actions|
  {
    TakenAreAdds(maxSamples, minSamples, actions);
    if actions != [] {
      var before, a := actions[..|actions| - 1], actions[|actions| - 1];
      WindowIsOfTaken(maxSamples, minSamples, before);
      var taken, c := Taken(maxSamples, minSamples, before), ActAll(Initial(maxSamples, minSamples), before);
      ActKeepsWindow(c, a, taken);
    }
  }

  ghost predicate IsBestOfLast(c: Clock, h: seq<Sample>) {
    exists k :: |h| - |c.samples| <= k < |h| && k >= 0 && c.offset == h[k].offset && c.rtt == h[k].rtt
      && LowestOfLast(c, h, k)
  }

  lemma ActKeepsWindow(c: Clock, a: Action, taken: seq<Action>)
    requires c.maxSamples > 0 && forall x :: x in taken ==> x.Adds? && x.send <= x.receive
    requires Window(c, SamplesOf(taken)) && (c.master ==> taken == [])
    requires taken != [] ==> IsBestOfLast(c, SamplesOf(taken))
    ensures var taken' := if IsTaken(c, a) then taken + [a]
                          else if a.SetsMaster? || a.Clears? || (a.Holds? && !c.master) then [] else taken;
      var c' := Act(c, a);
      && (forall x :: x in taken' ==> x.Adds? && x.send <= x.receive)
      && Window(c', SamplesOf(taken')) && (c'.master ==> taken' == [])
      && (taken' != [] ==> IsBestOfLast(c', SamplesOf(taken')))
  {
    if IsTaken(c, a) {
      TakenKeepsWindow(c, a, taken);
    } else if a.SetsMaster? || a.Clears? || (a.Holds? && !c.master) {
      EmptyWindow(Act(c, a));
    } else {
      SameWindow(c, Act(c, a), SamplesOf(taken));
    }
  }

  lemma TakenKeepsWindow(c: Clock, a: Action, taken: seq<Action>)
    requires c.maxSamples > 0 && forall x :: x in taken ==> x.Adds? && x.send <= x.receive
    requires Window(c, SamplesOf(taken)) && IsTaken(c, a)
    ensures var taken', c' := taken + [a], Act(c, a);
      && (forall x :: x in taken' ==> x.Adds? && x.send <= x.receive)
      && Window(c', SamplesOf(taken')) && !c'.master && IsBestOfLast(c', SamplesOf(taken'))
  {
    var s := SampleOf(a.send, a.masterTime, a.receive);
    var h := SamplesOf(taken) + [s];
    assert SamplesOf(taken + [a]) == h;
    PushKeepsWindow(c, SamplesOf(taken), s);
    EstimateIsBestOfLast(c, SamplesOf(taken), s);
    assert IsBestOfLast(Push(c, s), h);
    SameSamples(c, a, s);
    SameWindow(Push(c, s), Act(c, a), h);
  }

  lemma SameSamples(c: Clock, a: Action, s: Sample)
    requires c.maxSamples > 0 && IsTaken(c, a) && s == SampleOf(a.send, a.masterTime, a.receive)
    ensures var p, c' := Push(c, s), Act(c, a);
      && c'.samples == p.samples && c'.nextSample == p.nextSample && c'.maxSamples == p.maxSamples
      && c'.offset == p.offset && c'.rtt == p.rtt && !c'.master && c'.minSamples == c.minSamples
      && (c'.holding <==> c.holding && |c'.samples| < c.minSamples)
  {}

  lemma EmptyWindow(c: Clock)
    requires c.maxSamples > 0 && c.samples == [] && c.nextSample == 0
    ensures Window(c, SamplesOf([]))
  {}

  lemma SameWindow(c: Clock, c': Clock, h: seq<Sample>)
    requires Window(c, h) && c'.samples == c.samples && c'.nextSample == c.nextSample && c'.maxSamples == c.maxSamples
    requires c'.offset == c.offset && c'.rtt == c.rtt
    ensures Window(c', h) && (IsBestOfLast(c, h) ==> IsBestOfLast(c', h))
  {
    forall k | |h| - |c'.samples| <= k < |h| ensures InWindow(c', h, k) {
      assert InWindow(c, h, k);
    }
    if IsBestOfLast(c, h) {
      var k :| |h| - |c.samples| <= k < |h| && k >= 0 && c.offset == h[k].offset && c.rtt == h[k].rtt
        && LowestOfLast(c, h, k);
      assert LowestOfLast(c', h, k);
    }
  }

  /** The last round trips: as many as the window holds. */
  ghost predicate IsLast(taken: seq<Action>, maxSamples: nat, k: int) {
    0 <= k < |taken| && |taken| - maxSamples <= k
  }

  /** A round trip says how far the master is ahead to within half of how long it took. */
  lemma SampleIsClose(send: nat, masterTime: int, receive: nat, d: int)
    requires send <= masterTime - d <= receive
    ensures Abs(SampleOf(send, masterTime, receive).offset - d) <= (receive - send + 1) / 2
    ensures SampleOf(send, masterTime, receive).rtt == receive - send
  {}

  lemma {:induction false} TakenAreTrue(maxSamples: nat, minSamples: nat, actions: seq<Action>, ds: seq<int>)
    requires maxSamples > 0 && Against(actions, ds) && actions != []
    ensures forall a :: a in Taken(maxSamples, minSamples, actions) ==> IsTrue(a, ds[|ds| - 1])
    decreases |actions|
  {
    if |actions| > 1 {
      var before, a := actions[..|actions| - 1], actions[|actions| - 1];
      TakenAreTrue(maxSamples, minSamples, before, ds[..|ds| - 1]);
      var taken, c := Taken(maxSamples, minSamples, before), ActAll(Initial(maxSamples, minSamples), before);
      WindowIsOfTaken(maxSamples, minSamples, before);
      if ds[|ds| - 1] != ds[|ds| - 2] { assert DropsSamples(a); }
    } else {
      assert actions[..0] == [];
    }
  }

  /** The estimate is true: over any run, with masters that follow one another, the estimate is within half the lowest
      of the last round trips to the master of the moment; and that's the round trip the clock says it has. */
  lemma EstimateIsTrue(maxSamples: nat, minSamples: nat, actions: seq<Action>, ds: seq<int>)
    requires maxSamples > 0 && Against(actions, ds) && Taken(maxSamples, minSamples, actions) != []
    ensures var c, taken := ActAll(Initial(maxSamples, minSamples), actions), Taken(maxSamples, minSamples, actions);
      && Abs(c.offset - ds[|ds| - 1]) <= (c.rtt + 1) / 2
      && (exists k :: IsLast(taken, maxSamples, k) && taken[k].Adds? && c.rtt == taken[k].receive - taken[k].send)
      && (forall k :: IsLast(taken, maxSamples, k) ==> taken[k].Adds? && c.rtt <= taken[k].receive - taken[k].send)
  {
    var c, taken := ActAll(Initial(maxSamples, minSamples), actions), Taken(maxSamples, minSamples, actions);
    WindowIsOfTaken(maxSamples, minSamples, actions);
    TakenAreTrue(maxSamples, minSamples, actions, ds);
    BestIsTrue(c, taken, ds[|ds| - 1]);
  }

  lemma BestIsTrue(c: Clock, taken: seq<Action>, d: int)
    requires forall a :: a in taken ==> a.Adds? && a.send <= a.receive && IsTrue(a, d)
    requires Window(c, SamplesOf(taken)) && IsBestOfLast(c, SamplesOf(taken))
    ensures Abs(c.offset - d) <= (c.rtt + 1) / 2
    ensures exists k :: IsLast(taken, c.maxSamples, k) && taken[k].Adds? && c.rtt == taken[k].receive - taken[k].send
    ensures forall k :: IsLast(taken, c.maxSamples, k) ==> taken[k].Adds? && c.rtt <= taken[k].receive - taken[k].send
  {
    var h := SamplesOf(taken);
    var k :| |h| - |c.samples| <= k < |h| && k >= 0 && c.offset == h[k].offset && c.rtt == h[k].rtt
      && LowestOfLast(c, h, k);
    assert taken[k] in taken;
    SampleIsClose(taken[k].send, taken[k].masterTime, taken[k].receive, d);
    assert IsLast(taken, c.maxSamples, k);
    forall j | IsLast(taken, c.maxSamples, j) ensures taken[j].Adds? && c.rtt <= taken[j].receive - taken[j].send {
      assert taken[j] in taken && h[k].rtt <= h[j].rtt;
    }
  }

  /** So is the applied time, once it had twenty times the difference to get there: what the clock says is the master's
      time to within half a round trip. */
  lemma TimeIsTrue(maxSamples: nat, minSamples: nat, actions: seq<Action>, ds: seq<int>, c: Clock, local: nat)
    requires maxSamples > 0 && Against(actions, ds) && Taken(maxSamples, minSamples, actions) != []
    requires c == ActAll(Initial(maxSamples, minSamples), actions)
    requires local >= c.slewStart + 20 * Abs(c.offset - c.slewFrom)
    ensures Abs(LocalToMaster(c, local) - (local + ds[|ds| - 1])) <= (c.rtt + 1) / 2
  {
    EstimateIsTrue(maxSamples, minSamples, actions, ds);
    WindowIsOfTaken(maxSamples, minSamples, actions);
    ArrivedIsTrue(c, local, ds[|ds| - 1]);
  }

  lemma ArrivedIsTrue(c: Clock, local: nat, d: int)
    requires !c.master && Abs(c.offset - d) <= (c.rtt + 1) / 2
    requires local >= c.slewStart + 20 * Abs(c.offset - c.slewFrom)
    ensures Abs(LocalToMaster(c, local) - (local + d)) <= (c.rtt + 1) / 2
  {
    OffsetStaysBetween(c, local);
  }

  // ------------------------------------------------------------------------------------------------ Synchronization

  function Fewer(a: nat, b: nat): nat {
    if a < b then a else b
  }

  /** Whether the clock is the master's after a run: what it was made last. */
  function IsMasters(actions: seq<Action>): bool
    decreases |actions|
  {
    actions != [] &&
    var a := actions[|actions| - 1]; if a.SetsMaster? then a.master else IsMasters(actions[..|actions| - 1])
  }

  /** Whether a follower still holds a timeline after a run: since it got one, nothing dropped it, and it took too few
      round trips. */
  predicate IsHeld(maxSamples: nat, minSamples: nat, actions: seq<Action>)
    requires maxSamples > 0
    decreases |actions|
  {
    actions != [] &&
    var before, a := actions[..|actions| - 1], actions[|actions| - 1];
    match a
    case Holds(_, _) => !IsMasters(before)
    case SetsEpoch(_) => IsHeld(maxSamples, minSamples, before)
    case SetsMaster(_) => false
    case Clears => false
    case Adds(_, _, _) =>
      var n := |Taken(maxSamples, minSamples, actions)|;
      IsHeld(maxSamples, minSamples, before) && (n == 0 || Fewer(n, maxSamples) < minSamples)
  }

  /** A clock is synchronized exactly when it's the master's, holds a timeline, or took enough round trips; and it holds
      one only while it took too few. Without round trips nothing is left of the ones before. */
  lemma SynchronizedExactly(maxSamples: nat, minSamples: nat, actions: seq<Action>)
    requires maxSamples > 0
    ensures var c, n := ActAll(Initial(maxSamples, minSamples), actions), |Taken(maxSamples, minSamples, actions)|;
      && c.master == IsMasters(actions) && c.holding == IsHeld(maxSamples, minSamples, actions)
      && (IsSynchronized(c) <==> c.master || c.holding || Fewer(n, maxSamples) >= minSamples)
      && (n == 0 ==> IsBlank(c))
  {
    WindowIsOfTaken(maxSamples, minSamples, actions);
    HoldsExactly(maxSamples, minSamples, actions);
  }

  predicate HoldsFew(c: Clock) {
    c.samples == [] || |c.samples| < c.minSamples
  }

  predicate IsBlank(c: Clock) {
    c.samples == [] && c.offset == 0 && c.rtt == 0 && c.slewFrom == 0 && c.slewStart == 0
  }

  lemma {:induction false} HoldsExactly(maxSamples: nat, minSamples: nat, actions: seq<Action>)
    requires maxSamples > 0
    ensures var c := ActAll(Initial(maxSamples, minSamples), actions);
      && c.master == IsMasters(actions) && c.holding == IsHeld(maxSamples, minSamples, actions)
      && (c.samples == [] ==> IsBlank(c)) && (c.holding ==> !c.master && HoldsFew(c))
    decreases |actions|
  {
    if actions != [] {
      var before, a := actions[..|actions| - 1], actions[|actions| - 1];
      HoldsExactly(maxSamples, minSamples, before);
      WindowIsOfTaken(maxSamples, minSamples, actions);
      HoldStep(ActAll(Initial(maxSamples, minSamples), before), a);
    }
  }

  lemma HoldStep(c: Clock, a: Action)
    requires c.maxSamples > 0 && (c.samples == [] ==> IsBlank(c)) && (c.holding ==> !c.master && HoldsFew(c))
    ensures var c' := Act(c, a);
      && (c'.samples == [] ==> IsBlank(c')) && (c'.holding ==> !c'.master && HoldsFew(c'))
      && c'.master == (if a.SetsMaster? then a.master else c.master)
      && c'.holding == match a
                       case Holds(_, _) => !c.master
                       case SetsEpoch(_) => c.holding
                       case SetsMaster(_) => false
                       case Clears => false
                       case Adds(_, _, _) => c.holding && (!IsTaken(c, a) || |c'.samples| < c.minSamples)
  {
    if IsTaken(c, a) { SameSamples(c, a, SampleOf(a.send, a.masterTime, a.receive)); }
  }

  /** What a round trip does to the applied offset, at its instant: nothing when the clock is synchronized and the
      estimate within the step; else the estimate applies at once. A hold that doesn't end leaves the timeline alone. */
  lemma RoundTripApplies(c: Clock, send: nat, masterTime: int, receive: nat)
    requires c.maxSamples > 0 && IsTaken(c, Adds(send, masterTime, receive)) && !c.holding
    ensures var c' := AddSample(c, send, masterTime, receive).0; var was := OffsetAt(c, receive);
      OffsetAt(c', receive) ==
        if |c.samples| >= c.minSamples && -100000 <= c'.offset - was <= 100000 then was else c'.offset
  {}

  /** The master's clock is the reference: its own time, from its epoch. */
  lemma MasterIsReference(maxSamples: nat, minSamples: nat, actions: seq<Action>, local: nat)
    requires maxSamples > 0 && IsMasters(actions)
    ensures var c := ActAll(Initial(maxSamples, minSamples), actions);
      LocalToMaster(c, local) == local && Timeline(c, local) == local - c.epoch
  {
    HoldsExactly(maxSamples, minSamples, actions);
  }

  /** A clock takes a round trip exactly when it isn't the master's and no time is beyond 2^50 microseconds; with the
      times in order it becomes a sample, else nothing changes. */
  lemma TakesExactly(c: Clock, send: nat, masterTime: int, receive: nat)
    requires c.maxSamples > 0
    ensures var (c', plausible) := AddSample(c, send, masterTime, receive); var limit := 0x4_0000_0000_0000;
      && (plausible <==> !c.master && send < limit && receive < limit && -limit < masterTime - send < limit)
      && (!plausible || receive < send ==> c' == c)
    ensures forall epoch ::
      SetEpoch(c, epoch).1 <==> -0x4_0000_0000_0000 < epoch < 0x4_0000_0000_0000
  {}

  // --------------------------------------------------------------------------------------------------------- Epochs

  /** The epoch told last: by the master, or with the timeline to hold. */
  function LastTold(actions: seq<Action>): int
    decreases |actions|
  {
    if actions == [] then 0
    else
      match actions[|actions| - 1]
      case SetsEpoch(epoch) => if -MAX_TIME < epoch < MAX_TIME then epoch else LastTold(actions[..|actions| - 1])
      case Holds(_, epoch) => epoch
      case _ => LastTold(actions[..|actions| - 1])
  }

  /** Over any run of samples, holds and epochs, a follower that doesn't hold counts from the epoch told last, and one
      that holds will. */
  lemma {:induction false} EpochIsLastTold(maxSamples: nat, minSamples: nat, actions: seq<Action>)
    requires maxSamples > 0 && forall a :: a in actions ==> !a.SetsMaster? && !a.Clears?
    ensures var c := ActAll(Initial(maxSamples, minSamples), actions);
      !c.master && LastTold(actions) == if c.holding then c.pendingEpoch else c.epoch
    decreases |actions|
  {
    if actions != [] {
      EpochIsLastTold(maxSamples, minSamples, actions[..|actions| - 1]);
      assert actions[|actions| - 1] in actions;
    }
  }

  // ------------------------------------------------------------------------------------------------------ Wrapping

  /** What is given to a clock to hold is a plausible timeline. */
  predicate GivesPlausible(a: Action) {
    a.Holds? ==> -2 * MAX_TIME < a.offset < 2 * MAX_TIME && -MAX_TIME < a.epoch < MAX_TIME
  }

  predicate IsEstimate(offset: int) {
    -2 * MAX_TIME < offset < 2 * MAX_TIME
  }

  ghost predicate InRange(c: Clock) {
    && (forall s :: s in c.samples ==> IsEstimate(s.offset)) && IsEstimate(c.offset)
    && -3 * MAX_TIME < c.slewFrom < 3 * MAX_TIME
    && (c.holding ==> IsEstimate(c.heldOffset) && IsPlausible(c.heldEpoch) && IsPlausible(c.pendingEpoch))
    && IsPlausible(c.epoch)
  }

  predicate Fits64(x: int) {
    -0x8000_0000_0000_0000 <= x < 0x8000_0000_0000_0000
  }

  /** Nothing wraps around: whatever it is told, every number a clock computes with fits 64 bits. */
  lemma {:induction false} NothingWraps(maxSamples: nat, minSamples: nat, actions: seq<Action>)
    requires maxSamples > 0 && forall a :: a in actions ==> GivesPlausible(a)
    ensures var c := ActAll(Initial(maxSamples, minSamples), actions);
      && Fits64(c.offset) && Fits64(c.slewFrom) && Fits64(c.offset - c.slewFrom) && Fits64(c.epoch)
      && (c.holding ==> Fits64(c.heldOffset - c.heldEpoch))
      && (c.holding ==> Fits64(c.heldOffset - c.heldEpoch + c.pendingEpoch))
      && (c.holding ==> Fits64(c.offset - (c.heldOffset - c.heldEpoch + c.pendingEpoch)))
      && (forall local: nat :: local < MAX_TIME ==> Fits64(LocalToMaster(c, local)) && Fits64(Timeline(c, local)))
  {
    RangeHolds(maxSamples, minSamples, actions);
    var c := ActAll(Initial(maxSamples, minSamples), actions);
    forall local: nat | local < MAX_TIME ensures Fits64(LocalToMaster(c, local)) && Fits64(Timeline(c, local)) {
      OffsetStaysBetween(c, local);
    }
  }

  lemma {:induction false} RangeHolds(maxSamples: nat, minSamples: nat, actions: seq<Action>)
    requires maxSamples > 0 && forall a :: a in actions ==> GivesPlausible(a)
    ensures InRange(ActAll(Initial(maxSamples, minSamples), actions))
    decreases |actions|
  {
    if actions != [] {
      RangeHolds(maxSamples, minSamples, actions[..|actions| - 1]);
      assert actions[|actions| - 1] in actions;
      RangeKept(ActAll(Initial(maxSamples, minSamples), actions[..|actions| - 1]), actions[|actions| - 1]);
    }
  }

  lemma RangeKept(c: Clock, a: Action)
    requires c.maxSamples > 0 && InRange(c) && GivesPlausible(a)
    ensures InRange(Act(c, a))
  {
    if a.Adds? && IsTaken(c, a) {
      var s := SampleOf(a.send, a.masterTime, a.receive);
      assert IsEstimate(s.offset);
      PushedInRange(c, s);
      OffsetStaysBetween(c, a.receive);
    }
  }

  lemma PushedInRange(c: Clock, s: Sample)
    requires c.maxSamples > 0 && InRange(c) && IsEstimate(s.offset)
    ensures InRange(Push(c, s))
  {
    var c' := Push(c, s);
    forall x | x in c'.samples ensures IsEstimate(x.offset) {
      if x != s { assert x in c.samples; }
    }
  }
}
