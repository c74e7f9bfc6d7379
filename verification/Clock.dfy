/** The estimate of the clock master's time: samples of round trips, the offset of the best one, and the applied offset,
    which moves toward it little by little. Times are in microseconds. The source's are 64 bits wide, and the checks on
    them keep its arithmetic from wrapping around; here they are unbounded. */
module Clock {
  import opened Frames
  import opened Snapshots

  /** A round trip: how long it took, and the master's time minus the local one. */
  datatype Sample = Sample(rtt: nat, offset: int)

  const STEP: int := 100000
  const MAX_TIME: int := 0x4_0000_0000_0000

  /** `offset`: the estimate. The applied offset is `slewFrom` at the local time `slewStart`, and moves toward it. */
  datatype Clock = Clock(master: bool, maxSamples: nat, minSamples: nat, samples: seq<Sample>, nextSample: nat,
                         offset: int, rtt: nat, slewFrom: int, slewStart: nat, epoch: int,
                         holding: bool, heldOffset: int, heldEpoch: int, pendingEpoch: int)

  predicate IsPlausible(time: int) {
    -MAX_TIME < time < MAX_TIME
  }

  predicate IsPlausibleSample(send: nat, masterTime: int, receive: nat) {
    send < MAX_TIME && receive < MAX_TIME && IsPlausible(masterTime - send)
  }

  const U64: int := 0x1_0000_0000_0000_0000

  /** What the source computes with unsigned times, for a master's clock that may be behind the local one: the wrapped
      difference, as a signed integer, is the difference of plausible times. */
  function Signed64(x: int): int {
    var r := x % U64;
    if r < U64 / 2 then r else r - U64
  }

  lemma WrappedDifference(masterTime: int, local: nat)
    requires -U64 / 2 <= masterTime - local < U64 / 2
    ensures Signed64(masterTime % U64 - local) == masterTime - local
  {
    var q := masterTime / U64;
    assert masterTime % U64 - local == (masterTime - local) + (-q) * U64;
    ModPlusMultiple(masterTime - local, -q, U64);
    if masterTime >= local {
      ModUnique(masterTime - local, 0, masterTime - local, U64);
    } else {
      ModUnique(masterTime - local, -1, masterTime - local + U64, U64);
    }
  }

  // ------------------------------------------------------------------------------------------------ Applied offset

  function Abs(x: int): (r: nat) {
    if x < 0 then -x else x
  }

  function MinOf(a: int, b: int): int {
    if a < b then a else b
  }

  /** offset_at. */
  function OffsetAt(c: Clock, local: nat): int {
    var remaining := c.offset - c.slewFrom;
    if remaining == 0 then c.offset
    else if local <= c.slewStart then c.slewFrom
    else
      var moved := (local - c.slewStart) * 50 / 1000;
      if remaining > 0 then c.slewFrom + MinOf(moved, remaining) else c.slewFrom - MinOf(moved, -remaining)
  }

  /** How far the applied offset may move in a time: a twentieth of it, rounded up. */
  function Slew(d: nat): nat {
    (d + 19) / 20
  }

  lemma MovedIsTwentieth(d: nat)
    ensures d * 50 / 1000 == d / 20
  {}

  /** The applied offset never overshoots the estimate, and gets there within twenty times the difference. */
  lemma OffsetStaysBetween(c: Clock, local: nat)
    ensures c.slewFrom <= c.offset ==> c.slewFrom <= OffsetAt(c, local) <= c.offset
    ensures c.offset <= c.slewFrom ==> c.offset <= OffsetAt(c, local) <= c.slewFrom
    ensures local >= c.slewStart + 20 * Abs(c.offset - c.slewFrom) ==> OffsetAt(c, local) == c.offset
  {
    if local > c.slewStart { MovedIsTwentieth(local - c.slewStart); }
  }

  /** It moves by at most a twentieth of the time, so the master's time never goes back. */
  lemma OffsetMovesSlowly(c: Clock, local: nat, later: nat)
    requires local <= later
    ensures Abs(OffsetAt(c, later) - OffsetAt(c, local)) <= Slew(later - local)
    ensures local + OffsetAt(c, local) <= later + OffsetAt(c, later)
  {
    if local > c.slewStart { MovedIsTwentieth(local - c.slewStart); }
    if later > c.slewStart { MovedIsTwentieth(later - c.slewStart); }
  }

  // ------------------------------------------------------------------------------------------------------ Samples

  predicate IsSynchronized(c: Clock) {
    c.master || c.holding || |c.samples| >= c.minSamples
  }

  function ClearSamples(c: Clock): Clock {
    c.(samples := [], nextSample := 0, offset := 0, rtt := 0, slewFrom := 0, slewStart := 0, holding := false)
  }

  /** The first of the samples with the lowest round trip. */
  function Best(samples: seq<Sample>): (best: nat)
    requires samples != []
    ensures best < |samples| && forall i :: 0 <= i < |samples| ==> samples[best].rtt <= samples[i].rtt
    ensures forall i :: 0 <= i < best ==> samples[best].rtt < samples[i].rtt
    decreases |samples|
  {
    if |samples| == 1 then 0
    else
      var before, last := Best(samples[..|samples| - 1]), |samples| - 1;
      if samples[last].rtt < samples[before].rtt then last else before
  }

  /** The samples with one more: the oldest one leaves a full window. */
  function Push(c: Clock, s: Sample): Clock
    requires c.maxSamples > 0
  {
    var samples := if |c.samples| < c.maxSamples then c.samples + [s]
                   else if c.nextSample < |c.samples| then c.samples[c.nextSample := s] else c.samples;
    var c' := c.(samples := samples, nextSample := Slot(c.nextSample + 1, c.maxSamples));
    if samples == [] then c' else c'.(offset := samples[Best(samples)].offset, rtt := samples[Best(samples)].rtt)
  }

  predicate IsStep(difference: int) {
    difference > STEP || difference < -STEP
  }

  /** What a round trip says of the offset, with the same delay both ways. */
  function SampleOf(send: nat, masterTime: int, receive: nat): Sample
    requires send <= receive
  {
    Sample(receive - send, masterTime - (send + (receive - send) / 2))
  }

  predicate Refuses(c: Clock, send: nat, masterTime: int, receive: nat) {
    c.master || !IsPlausibleSample(send, masterTime, receive)
  }

  /** add_sample: the clock after it, and whether the times were plausible. */
  function AddSample(c: Clock, send: nat, masterTime: int, receive: nat): (Clock, bool)
    requires c.maxSamples > 0
  {
    if Refuses(c, send, masterTime, receive) then (c, false)
    else if receive < send then (c, true)
    else
      (Applied(Push(c, SampleOf(send, masterTime, receive)), IsSynchronized(c), OffsetAt(c, receive), receive), true)
  }

  /** What follows a new estimate, when `applied` was the offset at that time: a held timeline may end, or the applied
      offset starts again from where it was, unless it isn't used yet or the estimate is a step away. */
  function Applied(c: Clock, wasSynchronized: bool, applied: int, receive: nat): Clock {
    if c.holding then if |c.samples| < c.minSamples then c else EndHold(c, receive)
    else
      c.(slewFrom := if !wasSynchronized || IsStep(c.offset - applied) then c.offset else applied, slewStart := receive)
  }

  /** Ends a hold: the offset starts from the one that continues the held timeline under the new epoch. */
  function EndHold(c: Clock, receive: nat): Clock {
    var continued := c.heldOffset - c.heldEpoch + c.pendingEpoch;
    c.(holding := false, epoch := c.pendingEpoch,
       slewFrom := if IsStep(c.offset - continued) then c.offset else continued, slewStart := receive)
  }

  /** hold, on a clock that isn't the master's. */
  function Hold(c: Clock, offset: int, epoch: int): Clock {
    if c.master then c
    else ClearSamples(c).(holding := true, heldOffset := offset, heldEpoch := epoch, pendingEpoch := epoch)
  }

  function SetEpoch(c: Clock, epoch: int): (Clock, bool) {
    if !IsPlausible(epoch) then (c, false)
    else if c.holding then (c.(pendingEpoch := epoch), true)
    else (c.(epoch := epoch), true)
  }

  function SetMaster(c: Clock, master: bool): Clock {
    ClearSamples(c.(master := master))
  }

  // ----------------------------------------------------------------------------------------------------- Timeline

  function LocalToMaster(c: Clock, local: nat): int {
    if c.master then local else local + OffsetAt(c, local)
  }

  function TimelineOffset(c: Clock, local: nat): int {
    if c.holding then c.heldOffset else if c.master then 0 else OffsetAt(c, local)
  }

  /** get_timeline_usec. */
  function Timeline(c: Clock, local: nat): int {
    local + TimelineOffset(c, local) - (if c.holding then c.heldEpoch else c.epoch)
  }

  /** When a hold ends within the step, the timeline is the same at that instant; beyond it, the jump is the
      difference. */
  lemma HoldEndsWhereItWas(c: Clock, send: nat, masterTime: int, receive: nat)
    requires c.maxSamples > 0 && c.holding && !Refuses(c, send, masterTime, receive) && send <= receive
    requires !AddSample(c, send, masterTime, receive).0.holding
    ensures var c' := AddSample(c, send, masterTime, receive).0;
      var apart := c'.offset - (c.heldOffset - c.heldEpoch + c'.epoch);
      Timeline(c', receive) == Timeline(c, receive) + (if IsStep(apart) then apart else 0)
  {}

  /** A sample of a synchronized clock doesn't move the timeline at its instant, unless the estimate is a step away. */
  lemma SampleIsContinuous(c: Clock, send: nat, masterTime: int, receive: nat)
    requires c.maxSamples > 0 && !c.holding && !c.master && IsSynchronized(c)
    requires var c' := AddSample(c, send, masterTime, receive).0;
      !IsStep(c'.offset - OffsetAt(c, receive))
    ensures OffsetAt(AddSample(c, send, masterTime, receive).0, receive) == OffsetAt(c, receive)
  {}

  // -------------------------------------------------------------------------------------------------- Whole runs

  /** What happens to a clock: it's asked for the master's time; a round trip ends; the master moves, and the timeline
      followed until then is held; the master says where frame 0 is on its clock. */
  datatype Event =
    | Query(at: nat)
    | Pong(send: nat, masterTime: int, at: nat)
    | Moves(at: nat)
    | Tells(at: nat, frameZero: int)

  function After(c: Clock, e: Event): (c': Clock)
    requires c.maxSamples > 0
    ensures c'.maxSamples == c.maxSamples && c'.minSamples == c.minSamples && c'.master == c.master
  {
    match e
    case Query(_) => c
    case Pong(send, masterTime, at) => AddSample(c, send, masterTime, at).0
    case Moves(at) => Hold(c, TimelineOffset(c, at), if c.holding then c.heldEpoch else c.epoch)
    case Tells(_, frameZero) => SetEpoch(c, frameZero).0
  }

  /** The timeline at each query, in order. */
  function Answers(c: Clock, events: seq<Event>): seq<int>
    requires c.maxSamples > 0
    decreases |events|
  {
    if events == [] then []
    else (if events[0].Query? then [Timeline(c, events[0].at)] else []) + Answers(After(c, events[0]), events[1..])
  }

  /** No estimate is a step away: of what is applied, or of what continues a timeline whose hold it ends. And the epoch
      only changes while a timeline is held. */
  predicate IsGentle(c: Clock, e: Event)
    requires c.maxSamples > 0
  {
    var c' := After(c, e);
    match e
    case Query(_) => true
    case Moves(_) => true
    case Pong(_, _, at) =>
      if !c.holding then !IsStep(c'.offset - OffsetAt(c, at))
      else c'.holding || !IsStep(c'.offset - (c.heldOffset - c.heldEpoch + c'.epoch))
    case Tells(_, frameZero) => c.holding || frameZero == c.epoch
  }

  /** Local times that don't go back, from `now` on, at a follower that is synchronized. */
  ghost predicate Steady(c: Clock, now: nat, events: seq<Event>)
    requires c.maxSamples > 0
    decreases |events|
  {
    && IsSynchronized(c) && !c.master
    && (events == [] || (
          var e := events[0];
          now <= e.at && IsGentle(c, e) && Steady(After(c, e), e.at, events[1..])))
  }

  /** Nothing that happens moves the timeline at that instant: not a sample, not a new master, not the end of a hold. */
  lemma EventKeepsTimeline(c: Clock, e: Event)
    requires c.maxSamples > 0 && IsSynchronized(c) && !c.master && IsGentle(c, e)
    ensures Timeline(After(c, e), e.at) == Timeline(c, e.at)
  {
    if e.Pong? && !c.holding {
      SampleIsContinuous(c, e.send, e.masterTime, e.at);
    }
  }

  lemma TimelineMovesOn(c: Clock, local: nat, later: nat)
    requires !c.master && local <= later
    ensures Timeline(c, local) <= Timeline(c, later)
  {
    OffsetMovesSlowly(c, local, later);
  }

  /** The timeline never goes back: over any interleaving of samples, queries and changes of master, each answer is at
      least the one before it, and at least the timeline at the start. */
  lemma {:induction false} TimelineNeverGoesBack(c: Clock, now: nat, events: seq<Event>)
    requires c.maxSamples > 0 && Steady(c, now, events)
    ensures forall i :: 0 <= i < |Answers(c, events)| ==> Timeline(c, now) <= Answers(c, events)[i]
    ensures forall i, j :: 0 <= i < j < |Answers(c, events)| ==> Answers(c, events)[i] <= Answers(c, events)[j]
    decreases |events|
  {
    if events != [] {
      var e, c' := events[0], After(c, events[0]);
      TimelineNeverGoesBack(c', e.at, events[1..]);
      TimelineMovesOn(c, now, e.at);
      EventKeepsTimeline(c, e);
      assert Timeline(c, now) <= Timeline(c', e.at);
    }
  }

  // ------------------------------------------------------------------------------------------------------- Inverse

  /** master_to_local_usec, on a clock that isn't the master's, after `i` steps from the estimate. */
  function Inverse(c: Clock, masterTime: int, i: nat): (local: nat)
    requires NoWrap(c, masterTime)
    decreases i
  {
    if i == 0 then masterTime - c.offset
    else
      var before := Inverse(c, masterTime, i - 1);
      OffsetStaysBetween(c, before);
      masterTime - OffsetAt(c, before)
  }

  function MasterToLocal(c: Clock, masterTime: int): nat
    requires NoWrap(c, masterTime)
  {
    Inverse(c, masterTime, 3)
  }

  /** The local times asked about are after the local origin. */
  predicate NoWrap(c: Clock, masterTime: int) {
    c.offset <= masterTime && c.slewFrom <= masterTime
  }

  /** One step of the inverse: local times that are close give offsets that are twenty times closer. */
  lemma StepCloser(c: Clock, masterTime: int, a: nat, b: nat, d: nat, closer: nat)
    requires Abs(a - b) <= d && closer == Slew(d)
    ensures Abs(OffsetAt(c, a) - OffsetAt(c, b)) <= closer
    ensures Abs((masterTime - OffsetAt(c, a)) - (masterTime - OffsetAt(c, b))) <= closer
  {
    if a <= b { OffsetMovesSlowly(c, a, b); } else { OffsetMovesSlowly(c, b, a); }
  }

  /** How far off the inverse may be when the applied offset is `d` away from the estimate: each step divides that by
      twenty. */
  function Off(d: nat): nat {
    Slew(Slew(Slew(d)))
  }

  /** Whatever the clock, holding or not, the inverse isn't off by more. */
  lemma InverseIsClose(c: Clock, masterTime: int)
    requires !c.master && NoWrap(c, masterTime)
    ensures Abs(LocalToMaster(c, MasterToLocal(c, masterTime)) - masterTime) <= Off(Abs(c.offset - c.slewFrom))
  {
    var d := Abs(c.offset - c.slewFrom);
    var x0, x1, x2 := Inverse(c, masterTime, 0), Inverse(c, masterTime, 1), Inverse(c, masterTime, 2);
    OffsetStaysBetween(c, x0);
    StepCloser(c, masterTime, x1, x0, d, Slew(d));
    StepCloser(c, masterTime, x2, x1, Slew(d), Slew(Slew(d)));
    StepCloser(c, masterTime, Inverse(c, masterTime, 3), x2, Slew(Slew(d)), Off(d));
  }

  lemma OffGrows(d: nat, e: nat)
    requires d <= e
    ensures Off(d) <= Off(e)
  {}

  const WITHIN: int := 104000

  ghost predicate IsInverseWithin(c: Clock, error: nat) {
    forall masterTime :: NoWrap(c, masterTime) ==>
      Abs(LocalToMaster(c, MasterToLocal(c, masterTime)) - masterTime) <= error
  }

  /** Behind the estimate, the inverse is within 13 microseconds of every time if and only if the applied offset is not
      more than 104000 behind. */
  lemma InverseIsCloseExactly(c: Clock)
    requires !c.master && c.slewFrom <= c.offset
    ensures IsInverseWithin(c, 13) <==> c.offset - c.slewFrom <= WITHIN
  {
    var d := c.offset - c.slewFrom;
    if d <= WITHIN {
      forall masterTime | NoWrap(c, masterTime)
        ensures Abs(LocalToMaster(c, MasterToLocal(c, masterTime)) - masterTime) <= 13
      {
        InverseIsClose(c, masterTime);
        OffGrows(d, WITHIN);
      }
    } else {
      var q, b := FarTime(d);
      FarInverse(c, q, b);
    }
  }

  /** A time whose inverse is far, `20 * a + (a - 1) % 20`, for a difference: written with the quotient and the
      remainder of `a - 1`. */
  lemma FarTime(d: nat) returns (q: nat, b: nat)
    requires d > WITHIN
    ensures q >= 260 && b < 20
    ensures var time := 20 * (20 * q + b + 1) + b; d <= time <= d + (if b == 0 then 19 else 20)
  {
    var a := d / 20;
    q, b := (a - 1) / 20, (a - 1) % 20;
    if a == 5200 || d % 20 > b {
      q, b := a / 20, a % 20;
    }
  }

  /** At that time after the start of the slew the inverse is off by a twentieth of the quotient, and one. */
  lemma FarInverse(c: Clock, q: nat, b: nat)
    requires !c.master && q >= 260 && b < 20
    requires var time := 20 * (20 * q + b + 1) + b; var d := c.offset - c.slewFrom;
      d > WITHIN && d <= time <= d + (if b == 0 then 19 else 20)
    ensures !IsInverseWithin(c, 13)
  {
    var time, d := 20 * (20 * q + b + 1) + b, c.offset - c.slewFrom;
    var masterTime := time + c.slewFrom + c.slewStart;
    assert NoWrap(c, masterTime);
    var x0, x1 := Inverse(c, masterTime, 0), Inverse(c, masterTime, 1);
    assert x0 == time - d + c.slewStart;
    Behind(c, x0);
    assert time - 1 + c.slewStart <= x1 <= time + c.slewStart;
    Behind(c, x1);
    assert OffsetAt(c, x1) == c.slewFrom + 20 * q + b + 1;
    var x2 := Inverse(c, masterTime, 2);
    assert x2 == 380 * q + 20 * b + 19 + c.slewStart;
    Behind(c, x2);
    assert OffsetAt(c, x2) == c.slewFrom + 19 * q + b;
    var x3 := Inverse(c, masterTime, 3);
    assert x3 == 381 * q + 20 * b + 20 + c.slewStart;
    Behind(c, x3);
    assert LocalToMaster(c, x3) == masterTime + q / 20 + 1;
  }

  lemma Behind(c: Clock, local: nat)
    requires c.slewFrom < c.offset && c.slewStart <= local
    ensures OffsetAt(c, local) == c.slewFrom + MinOf((local - c.slewStart) / 20, c.offset - c.slewFrom)
  {
    MovedIsTwentieth(local - c.slewStart);
  }

  // ---------------------------------------------------------------------------------------------------- Invariant

  datatype Action =
    | Adds(send: nat, masterTime: int, receive: nat)
    | Holds(offset: int, epoch: int)
    | SetsEpoch(epoch: int)
    | SetsMaster(master: bool)
    | Clears

  function Act(c: Clock, a: Action): (c': Clock)
    requires c.maxSamples > 0
    ensures c'.maxSamples == c.maxSamples && c'.minSamples == c.minSamples
  {
    match a
    case Adds(send, masterTime, receive) => AddSample(c, send, masterTime, receive).0
    case Holds(offset, epoch) => Hold(c, offset, epoch)
    case SetsEpoch(epoch) => SetEpoch(c, epoch).0
    case SetsMaster(master) => SetMaster(c, master)
    case Clears => ClearSamples(c)
  }

  /** What every clock keeps: while it holds another timeline, the applied offset isn't maintained; otherwise it's
      within the step of the estimate. */
  predicate Inv(c: Clock) {
    if c.holding then c.slewFrom == 0 else Abs(c.offset - c.slewFrom) <= STEP
  }

  function Initial(maxSamples: nat, minSamples: nat): Clock {
    Clock(false, maxSamples, minSamples, [], 0, 0, 0, 0, 0, 0, false, 0, 0, 0)
  }

  lemma {:induction false} RunKeeps(c: Clock, actions: seq<Action>)
    requires c.maxSamples > 0 && Inv(c)
    ensures Inv(ActAll(c, actions))
    decreases |actions|
  {
    if actions != [] {
      RunKeeps(c, actions[..|actions| - 1]);
    }
  }

  function ActAll(c: Clock, actions: seq<Action>): (c': Clock)
    requires c.maxSamples > 0
    ensures c'.maxSamples == c.maxSamples
    decreases |actions|
  {
    if actions == [] then c else Act(ActAll(c, actions[..|actions| - 1]), actions[|actions| - 1])
  }

  /** After any actions, the applied offset is within the step of the estimate exactly when the clock isn't holding
      another timeline, or the new master's estimate is within the step of zero. */
  lemma SlewIsBounded(maxSamples: nat, minSamples: nat, actions: seq<Action>)
    requires maxSamples > 0
    ensures var c := ActAll(Initial(maxSamples, minSamples), actions);
      Abs(c.offset - c.slewFrom) <= STEP <==> !c.holding || Abs(c.offset) <= STEP
  {
    RunKeeps(Initial(maxSamples, minSamples), actions);
  }

  /** A clock that holds and has one sample of a new master may have its estimate any distance from the applied offset,
      and its inverse is then off by more than 13 if the estimate is more than 104000 ahead. */
  lemma HoldingSlewIsUnbounded(d: int)
    requires IsPlausible(d)
    ensures var c := ActAll(Initial(16, 4), [Holds(0, 0), Adds(0, d, 0)]);
      && c.holding && !c.master && c.offset == d && c.slewFrom == 0 && c.slewStart == 0
      && (d >= 0 ==> (IsInverseWithin(c, 13) <==> d <= WITHIN))
  {
    var first := [Holds(0, 0)];
    assert first[..0] == [] && [Holds(0, 0), Adds(0, d, 0)][..1] == first;
    var held := Hold(Initial(16, 4), 0, 0);
    assert ActAll(Initial(16, 4), first) == held;
    var c := AddSample(held, 0, d, 0).0;
    assert c.samples == [Sample(0, d)];
    if d >= 0 { InverseIsCloseExactly(c); }
  }

  // ------------------------------------------------------------------------------------------------------- Window

  /** The window holds the last samples: the `k`th one since the clock was cleared is in the slot of `k`. */
  ghost predicate Window(c: Clock, history: seq<Sample>) {
    && c.maxSamples > 0 && |c.samples| == (if |history| < c.maxSamples then |history| else c.maxSamples)
    && c.nextSample == Slot(|history|, c.maxSamples)
    && forall k :: |history| - |c.samples| <= k < |history| ==> InWindow(c, history, k)
  }

  predicate InWindow(c: Clock, history: seq<Sample>, k: nat)
    requires c.maxSamples > 0 && k < |history|
  {
    Slot(k, c.maxSamples) < |c.samples| && c.samples[Slot(k, c.maxSamples)] == history[k]
  }

  lemma {:induction false} SmallSlot(k: nat, n: nat)
    requires k < n
    ensures Slot(k, n) == k
  {}

  lemma PushKeepsWindow(c: Clock, history: seq<Sample>, s: Sample)
    requires Window(c, history)
    ensures Window(Push(c, s), history + [s])
  {
    var c', h := Push(c, s), history + [s];
    NextSlot(|history|, c.maxSamples);
    forall k | |h| - |c'.samples| <= k < |h| ensures InWindow(c', h, k) {
      PushedInWindow(c, history, s, k);
    }
  }

  lemma PushedInWindow(c: Clock, history: seq<Sample>, s: Sample, k: nat)
    requires Window(c, history) && |history| + 1 - |Push(c, s).samples| <= k <= |history|
    ensures InWindow(Push(c, s), history + [s], k)
  {
    if k < |history| {
      assert InWindow(c, history, k);
      SlotsOfARing(k, |history|, c.maxSamples);
    } else if |history| < c.maxSamples {
      SmallSlot(k, c.maxSamples);
    }
  }

  lemma {:induction false} NextSlot(k: nat, n: nat)
    requires n > 0
    ensures Slot(Slot(k, n) + 1, n) == Slot(k + 1, n)
    decreases k
  {
    if k >= n { NextSlot(k - n, n); }
  }

  /** The estimate is the offset of a sample with the lowest round trip among the last ones. */
  lemma EstimateIsBestOfLast(c: Clock, history: seq<Sample>, s: Sample)
    requires Window(c, history)
    ensures var c', h := Push(c, s), history + [s];
      exists k :: |h| - |c'.samples| <= k < |h| && c'.offset == h[k].offset && c'.rtt == h[k].rtt
        && LowestOfLast(c', h, k)
  {
    var c', h := Push(c, s), history + [s];
    PushKeepsWindow(c, history, s);
    var best := Best(c'.samples);
    var k := InSlot(c', h, best);
    forall j | |h| - |c'.samples| <= j < |h| ensures h[k].rtt <= h[j].rtt {
      assert InWindow(c', h, j);
    }
    assert LowestOfLast(c', h, k);
  }

  ghost predicate LowestOfLast(c: Clock, history: seq<Sample>, k: nat)
    requires k < |history|
  {
    forall j :: |history| - |c.samples| <= j < |history| && j >= 0 ==> history[k].rtt <= history[j].rtt
  }

  /** Every slot has one of the last samples. */
  lemma InSlot(c: Clock, history: seq<Sample>, i: nat) returns (k: nat)
    requires Window(c, history) && i < |c.samples|
    ensures |history| - |c.samples| <= k < |history| && c.samples[i] == history[k]
  {
    var n, first := c.maxSamples, |history| - |c.samples|;
    k := FindSlot(first, n, i, |c.samples|);
    assert InWindow(c, history, k);
  }

  /** The frames of a whole ring reach every slot. */
  lemma {:induction false} FindSlot(first: nat, n: nat, i: nat, count: nat) returns (k: nat)
    requires i < count <= n && (count < n ==> first == 0)
    ensures first <= k < first + count && Slot(k, n) == i
    decreases first
  {
    if first == 0 {
      k := i;
    } else if first < n {
      k := if i >= first then i else i + n;
    } else {
      k := FindSlot(first - n, n, i, count);
      k := k + n;
    }
  }

  // --------------------------------------------------------------------------------------------------- The object

  /** The clock as it works: its samples in a window updated in place. */
  class TickClock {
    var master: bool
    var maxSamples: nat
    var minSamples: nat
    var samples: seq<Sample>
    var nextSample: nat
    var offset: int
    var rtt: nat
    var slewFrom: int
    var slewStart: nat
    var epoch: int
    var holding: bool
    var heldOffset: int
    var heldEpoch: int
    var pendingEpoch: int

    constructor ()
      ensures V() == Initial(16, 4) && Valid()
    {
      master, maxSamples, minSamples, samples, nextSample := false, 16, 4, [], 0;
      offset, rtt, slewFrom, slewStart, epoch := 0, 0, 0, 0, 0;
      holding, heldOffset, heldEpoch, pendingEpoch := false, 0, 0, 0;
    }

    ghost function V(): Clock
      reads this
    {
      Clock(master, maxSamples, minSamples, samples, nextSample, offset, rtt, slewFrom, slewStart, epoch, holding,
            heldOffset, heldEpoch, pendingEpoch)
    }

    ghost predicate Valid()
      reads this
    {
      maxSamples > 0 && |samples| <= maxSamples && nextSample < maxSamples
    }

    method DropSamples()
      requires Valid()
      modifies this
      ensures V() == ClearSamples(old(V())) && Valid()
    {
      samples, nextSample, offset, rtt := [], 0, 0, 0;
      slewFrom, slewStart, holding := 0, 0, false;
    }

    method HoldTimeline(offset: int, epoch: int)
      requires Valid()
      modifies this
      ensures V() == Hold(old(V()), offset, epoch) && Valid()
    {
      if master {
        return;
      }
      DropSamples();
      holding, heldOffset, heldEpoch, pendingEpoch := true, offset, epoch, epoch;
    }

    method SetMasterEpoch(epoch: int) returns (taken: bool)
      requires Valid()
      modifies this
      ensures (V(), taken) == SetEpoch(old(V()), epoch) && Valid()
    {
      if !IsPlausible(epoch) {
        return false;
      }
      if holding {
        pendingEpoch := epoch;
        return true;
      }
      this.epoch := epoch;
      return true;
    }

    method AppliedOffset(local: nat) returns (applied: int)
      ensures applied == OffsetAt(V(), local)
    {
      var remaining := offset - slewFrom;
      if remaining == 0 {
        return offset;
      }
      if local <= slewStart {
        return slewFrom;
      }
      var moved := (local - slewStart) * 50 / 1000;
      if remaining > 0 {
        return slewFrom + MinOf(moved, remaining);
      }
      return slewFrom - MinOf(moved, -remaining);
    }

    /** update_estimate. */
    method UpdateEstimate()
      requires samples != []
      modifies this`offset, this`rtt
      ensures offset == samples[Best(samples)].offset && rtt == samples[Best(samples)].rtt
    {
      var best, i := 0, 1;
      assert samples[..1] == [samples[0]];
      while i < |samples|
        invariant 1 <= i <= |samples| && best == Best(samples[..i])
      {
        assert samples[..i + 1][..i] == samples[..i];
        if samples[i].rtt < samples[best].rtt {
          best := i;
        }
        i := i + 1;
      }
      assert samples[..i] == samples;
      offset, rtt := samples[best].offset, samples[best].rtt;
    }

    method AddPong(send: nat, masterTime: int, receive: nat) returns (plausible: bool)
      requires Valid()
      modifies this
      ensures (V(), plausible) == AddSample(old(V()), send, masterTime, receive) && Valid()
    {
      if master || !IsPlausibleSample(send, masterTime, receive) {
        return false;
      }
      if receive < send {
        return true;
      }
      var wasSynchronized := holding || |samples| >= minSamples;
      var applied := AppliedOffset(receive);
      Keep(Sample(receive - send, masterTime - (send + (receive - send) / 2)));
      ApplyEstimate(wasSynchronized, applied, receive);
      return true;
    }

    /** What follows a new estimate: a held timeline may end, or the applied offset starts again from where it was. */
    method ApplyEstimate(wasSynchronized: bool, applied: int, receive: nat)
      requires Valid()
      modifies this
      ensures Valid() && V() == Applied(old(V()), wasSynchronized, applied, receive)
    {
      if holding {
        if |samples| < minSamples {
          return;
        }
        holding, epoch := false, pendingEpoch;
        var continued := heldOffset - heldEpoch + epoch;
        var apart := offset - continued;
        slewFrom := if apart > STEP || apart < -STEP then offset else continued;
        slewStart := receive;
        return;
      }
      var difference := offset - applied;
      slewFrom := if !wasSynchronized || difference > STEP || difference < -STEP then offset else applied;
      slewStart := receive;
    }

    method Keep(sample: Sample)
      requires Valid()
      modifies this`samples, this`nextSample, this`offset, this`rtt
      ensures V() == Push(old(V()), sample) && Valid()
    {
      if |samples| < maxSamples {
        samples := samples + [sample];
      } else {
        samples := samples[nextSample := sample];
      }
      nextSample := Slot(nextSample + 1, maxSamples);
      UpdateEstimate();
    }

    /** master_to_local_usec, on a clock that isn't the master's. */
    method LocalOf(masterTime: int) returns (local: int)
      requires !master && NoWrap(V(), masterTime)
      ensures local == MasterToLocal(V(), masterTime)
      ensures local >= 0 && Abs(LocalToMaster(V(), local) - masterTime) <= Off(Abs(offset - slewFrom))
      ensures Abs(offset - slewFrom) <= WITHIN ==> Abs(LocalToMaster(V(), local) - masterTime) <= 13
    {
      local := masterTime - offset;
      var i := 0;
      while i < 3
        invariant 0 <= i <= 3 && local == Inverse(V(), masterTime, i)
      {
        var applied := AppliedOffset(local);
        local := masterTime - applied;
        i := i + 1;
      }
      InverseIsClose(V(), masterTime);
      if Abs(offset - slewFrom) <= WITHIN { OffGrows(Abs(offset - slewFrom), WITHIN); }
    }
  }
}
