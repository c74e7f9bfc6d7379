/** The inputs of a client on their way to the server's ticks: recent frames sent again and again, equal ones once, kept
    in a ring for the frames still to simulate. */
module Inputs {
  import opened Frames
  import opened Snapshots

  /** What a client collected at a frame, for all its objects. */
  type FrameInput = seq<bool>

  /** An input and how many more frames in a row have it; 8 bits on the wire. */
  datatype Group = Group(input: FrameInput, duplicates: nat)

  const MAX_DUPLICATES: nat := 255
  /** TICK_MAX_INPUT_FRAMES. */
  const MAX_INPUT_FRAMES: nat := 64

  // ----------------------------------------------------------------------------------------------------- Grouping

  /** One more frame after the ones that are grouped. */
  function AddFrame(groups: seq<Group>, input: FrameInput): (r: seq<Group>)
    ensures |r| <= |groups| + 1
  {
    var last := |groups| - 1;
    if groups != [] && groups[last].input == input && groups[last].duplicates < MAX_DUPLICATES
    then groups[last := Group(input, groups[last].duplicates + 1)]
    else groups + [Group(input, 0)]
  }

  /** write_input_groups. */
  function GroupsOf(frames: seq<FrameInput>): (groups: seq<Group>)
    ensures |groups| <= |frames|
    decreases |frames|
  {
    if frames == [] then [] else AddFrame(GroupsOf(frames[..|frames| - 1]), frames[|frames| - 1])
  }

  function Repeat(input: FrameInput, n: nat): (r: seq<FrameInput>)
    ensures |r| == n && forall i :: 0 <= i < n ==> r[i] == input
  {
    seq(n, i => input)
  }

  function Expand(groups: seq<Group>): seq<FrameInput>
    decreases |groups|
  {
    if groups == [] then []
    else
      var last := groups[|groups| - 1];
      Expand(groups[..|groups| - 1]) + Repeat(last.input, last.duplicates + 1)
  }

  /** Expanding the groups gives the frames back, whatever they are. */
  lemma {:induction false} ExpandGroups(frames: seq<FrameInput>)
    ensures Expand(GroupsOf(frames)) == frames
    decreases |frames|
  {
    if frames != [] {
      ExpandGroups(frames[..|frames| - 1]);
      ExpandAdded(GroupsOf(frames[..|frames| - 1]), frames[|frames| - 1]);
      assert frames == frames[..|frames| - 1] + [frames[|frames| - 1]];
    }
  }

  lemma ExpandAdded(groups: seq<Group>, input: FrameInput)
    ensures Expand(AddFrame(groups, input)) == Expand(groups) + [input]
  {
    var last := |groups| - 1;
    if groups != [] && groups[last].input == input && groups[last].duplicates < MAX_DUPLICATES {
      var n := groups[last].duplicates;
      LastReplaced(groups, Group(input, n + 1));
      ExpandLonger(groups[..last], input, n);
    } else {
      ExpandNew(groups, input);
    }
  }

  lemma LastReplaced(groups: seq<Group>, g: Group)
    requires groups != []
    ensures groups == groups[..|groups| - 1] + [groups[|groups| - 1]]
    ensures groups[|groups| - 1 := g] == groups[..|groups| - 1] + [g]
  {}

  lemma ExpandNew(groups: seq<Group>, input: FrameInput)
    ensures Expand(groups + [Group(input, 0)]) == Expand(groups) + [input]
  {
    assert Repeat(input, 1) == [input];
    ExpandLast(groups, Group(input, 0));
  }

  lemma ExpandLonger(before: seq<Group>, input: FrameInput, n: nat)
    ensures Expand(before + [Group(input, n + 1)]) == Expand(before + [Group(input, n)]) + [input]
  {
    ExpandLast(before, Group(input, n + 1));
    ExpandLast(before, Group(input, n));
    RepeatOneMore(Expand(before), input, n + 1);
  }

  lemma ExpandLast(groups: seq<Group>, last: Group)
    ensures Expand(groups + [last]) == Expand(groups) + Repeat(last.input, last.duplicates + 1)
  {
    assert (groups + [last])[..|groups|] == groups;
  }

  lemma RepeatOneMore(before: seq<FrameInput>, input: FrameInput, n: nat)
    ensures before + Repeat(input, n + 1) == before + Repeat(input, n) + [input]
  {}

  /** The groups of a message: no count is too big for its byte. */
  ghost predicate FitWire(groups: seq<Group>) {
    forall g :: g in groups ==> g.duplicates <= MAX_DUPLICATES
  }

  /** Each group is as long as it can be. */
  ghost predicate AreMaximal(groups: seq<Group>) {
    forall i :: 0 <= i < |groups| ==> IsMaximal(groups, i)
  }

  predicate IsMaximal(groups: seq<Group>, i: nat)
    requires i < |groups|
  {
    groups[i].duplicates <= MAX_DUPLICATES &&
    (i + 1 < |groups| && groups[i + 1].input == groups[i].input ==> groups[i].duplicates == MAX_DUPLICATES)
  }

  /** No groups that expand to the same frames are fewer. */
  ghost predicate IsShortest(groups: seq<Group>) {
    && FitWire(groups)
    && forall others :: FitWire(others) && Expand(others) == Expand(groups) ==> |groups| <= |others|
  }

  lemma GroupsAreShortest(frames: seq<FrameInput>)
    ensures IsShortest(GroupsOf(frames)) && AreMaximal(GroupsOf(frames))
  {
    GroupsAreMaximal(frames);
    ExpandGroups(frames);
    forall others | FitWire(others) && Expand(others) == frames ensures |GroupsOf(frames)| <= |others| {
      NoFewerGroups(others);
    }
  }

  lemma {:induction false} GroupsAreMaximal(frames: seq<FrameInput>)
    ensures AreMaximal(GroupsOf(frames)) && FitWire(GroupsOf(frames))
    decreases |frames|
  {
    if frames != [] {
      var before := GroupsOf(frames[..|frames| - 1]);
      GroupsAreMaximal(frames[..|frames| - 1]);
      var groups := GroupsOf(frames);
      forall i | 0 <= i < |groups| ensures IsMaximal(groups, i) {
        if i < |before| { assert IsMaximal(before, i); }
      }
    }
  }

  /** However the frames are grouped, one group after the other, each makes at most one more. */
  lemma {:induction false} NoFewerGroups(groups: seq<Group>)
    requires FitWire(groups)
    ensures |GroupsOf(Expand(groups))| <= |groups|
    decreases |groups|
  {
    if groups != [] {
      var last := groups[|groups| - 1];
      NoFewerGroups(groups[..|groups| - 1]);
      RunMakesOne(Expand(groups[..|groups| - 1]), last.input, last.duplicates + 1);
    }
  }

  /** A run of equal frames that fits a group makes at most one more, which isn't longer than the run. */
  lemma {:induction false} RunMakesOne(frames: seq<FrameInput>, input: FrameInput, n: nat)
    requires n <= MAX_DUPLICATES + 1
    ensures var before, after := GroupsOf(frames), GroupsOf(frames + Repeat(input, n));
      || |after| == |before|
      || (|after| == |before| + 1 && after[|before|].input == input && after[|before|].duplicates < n)
    decreases n
  {
    if n == 0 {
      assert frames + Repeat(input, 0) == frames;
    } else {
      RunMakesOne(frames, input, n - 1);
      RepeatOneMore(frames, input, n - 1);
      var all := frames + Repeat(input, n);
      assert all[..|all| - 1] == frames + Repeat(input, n - 1) && all[|all| - 1] == input;
    }
  }

  method WriteGroups(frames: seq<FrameInput>) returns (groups: seq<Group>)
    ensures groups == GroupsOf(frames) && Expand(groups) == frames && IsShortest(groups)
  {
    groups := [];
    var i := 0;
    while i < |frames|
      invariant 0 <= i <= |frames| && groups == GroupsOf(frames[..i])
    {
      assert frames[..i + 1][..i] == frames[..i];
      var last := |groups| - 1;
      if groups != [] && groups[last].input == frames[i] && groups[last].duplicates < MAX_DUPLICATES {
        groups := groups[last := groups[last].(duplicates := groups[last].duplicates + 1)];
      } else {
        groups := groups + [Group(frames[i], 0)];
      }
      i := i + 1;
    }
    assert frames[..i] == frames;
    ExpandGroups(frames);
    GroupsAreShortest(frames);
  }

  // --------------------------------------------------------------------------------------------------------- Ring

  datatype InputRecord = InputRecord(frame: Option<nat>, input: FrameInput)

  /** A message: the groups from `first` on that could be read, of `count`. */
  datatype Message = Message(first: nat, count: nat, groups: seq<Group>)

  /** What the server keeps of a client: `lastInput`, the input it used last. */
  datatype Buffer = Buffer(ring: seq<InputRecord>, lastReceived: Option<nat>, lastInput: Option<FrameInput>)

  /** A frame's input, when `current` is the next frame to simulate: too late, too early, known already, or kept. */
  function Accept(b: Buffer, current: nat, frame: nat, input: FrameInput): (r: Buffer)
    requires |b.ring| > 0
    ensures |r.ring| == |b.ring|
  {
    var isNew := b.lastReceived.None? || b.lastReceived.value < frame;
    var slot := Slot(frame, |b.ring|);
    if frame < current then b.(lastReceived := if isNew then Some(frame) else b.lastReceived)
    else if frame >= current + |b.ring| || b.ring[slot].frame == Some(frame) then b
    else
      b.(ring := b.ring[slot := InputRecord(Some(frame), input)],
         lastReceived := if isNew then Some(frame) else b.lastReceived)
  }

  /** Frames in a row, from `first` on. */
  function AcceptAll(b: Buffer, current: nat, first: nat, frames: seq<FrameInput>): (r: Buffer)
    requires |b.ring| > 0
    ensures |r.ring| == |b.ring|
    decreases |frames|
  {
    if frames == [] then b
    else Accept(AcceptAll(b, current, first, frames[..|frames| - 1]), current, first + (|frames| - 1),
                frames[|frames| - 1])
  }

  /** The frames a message is good for: its groups up to the first one that makes it describe too many. */
  function Usable(groups: seq<Group>): seq<FrameInput>
    decreases |groups|
  {
    if groups == [] then []
    else
      var before, last := groups[..|groups| - 1], groups[|groups| - 1];
      if IsUsable(before) && |Usable(before)| + last.duplicates + 1 <= MAX_INPUT_FRAMES
      then Usable(before) + Repeat(last.input, last.duplicates + 1)
      else Usable(before)
  }

  predicate IsUsable(groups: seq<Group>) {
    |Expand(groups)| <= MAX_INPUT_FRAMES
  }

  lemma {:induction false} UsableIsAll(groups: seq<Group>)
    ensures |Usable(groups)| <= MAX_INPUT_FRAMES && |Usable(groups)| <= |Expand(groups)|
    ensures IsUsable(groups) ==> Usable(groups) == Expand(groups)
    ensures Usable(groups) == Expand(groups)[..|Usable(groups)|]
    decreases |groups|
  {
    if groups != [] {
      UsableIsAll(groups[..|groups| - 1]);
    }
  }

  /** server_handle_inputs: what concerns the inputs. */
  function TakeMessage(b: Buffer, current: nat, m: Message): Buffer
    requires |b.ring| > 0
  {
    if m.count > MAX_INPUT_FRAMES then b else AcceptAll(b, current, m.first, Usable(m.groups))
  }

  /** server_resolve_input: the input of a frame, or the last one again. */
  function Resolve(b: Buffer, frame: nat): (Buffer, Option<FrameInput>)
    requires |b.ring| > 0
  {
    var record := b.ring[Slot(frame, |b.ring|)];
    if record.frame == Some(frame)
    then (b.(ring := b.ring[Slot(frame, |b.ring|) := record.(frame := None)], lastInput := Some(record.input)),
          Some(record.input))
    else (b, b.lastInput)
  }

  // ---------------------------------------------------------------------------------------------- What the ring is

  /** Whether the ring has the input of a frame, and which. */
  predicate Has(b: Buffer, f: nat)
    requires |b.ring| > 0
  {
    b.ring[Slot(f, |b.ring|)].frame == Some(f)
  }

  function InputAt(b: Buffer, f: nat): FrameInput
    requires |b.ring| > 0
  {
    b.ring[Slot(f, |b.ring|)].input
  }

  predicate InReach(b: Buffer, current: nat, f: nat) {
    current <= f < current + |b.ring|
  }

  /** The inputs kept for the frames from `current` on. */
  ghost function Pending(b: Buffer, current: nat): map<nat, FrameInput>
    requires |b.ring| > 0
  {
    map f | current <= f < current + |b.ring| && Has(b, f) :: InputAt(b, f)
  }

  lemma OtherSlot(n: nat, current: nat, f: nat, g: nat)
    requires n > 0 && current <= f < current + n && current <= g < current + n && f != g
    ensures Slot(f, n) != Slot(g, n)
  {
    SlotsOfARing(if f < g then f else g, if f < g then g else f, n);
  }

  lemma AcceptAt(b: Buffer, current: nat, frame: nat, input: FrameInput, f: nat)
    requires |b.ring| > 0 && InReach(b, current, f)
    ensures var b' := Accept(b, current, frame, input);
      && (Has(b', f) <==> Has(b, f) || f == frame)
      && (Has(b', f) ==> InputAt(b', f) == if Has(b, f) then InputAt(b, f) else input)
      && b'.lastInput == b.lastInput
  {
    if InReach(b, current, frame) && f != frame { OtherSlot(|b.ring|, current, f, frame); }
  }

  lemma {:induction false} AcceptAllAt(b: Buffer, current: nat, first: nat, frames: seq<FrameInput>, f: nat)
    requires |b.ring| > 0 && InReach(b, current, f)
    ensures var b' := AcceptAll(b, current, first, frames);
      && (Has(b', f) <==> Has(b, f) || first <= f < first + |frames|)
      && (Has(b', f) ==> InputAt(b', f) == if Has(b, f) then InputAt(b, f) else frames[f - first])
      && b'.lastInput == b.lastInput
    decreases |frames|
  {
    if frames != [] {
      var before := frames[..|frames| - 1];
      AcceptAllAt(b, current, first, before, f);
      AcceptAt(AcceptAll(b, current, first, before), current, first + (|frames| - 1), frames[|frames| - 1], f);
    }
  }

  /** A map of inputs with the frames in a row that are in reach added; the ones it has stay. */
  ghost function Added(before: map<nat, FrameInput>, current: nat, reach: nat, first: nat, frames: seq<FrameInput>)
    : map<nat, FrameInput>
  {
    before + (map f | first <= f < first + |frames| && current <= f < reach && f !in before :: frames[f - first])
  }

  /** The ring is a map from the frames to simulate to their inputs: taking frames adds the ones in reach that it
      doesn't have, and never replaces the input of a frame still to simulate. */
  lemma AcceptAllIsMapUpdate(b: Buffer, current: nat, first: nat, frames: seq<FrameInput>)
    requires |b.ring| > 0
    ensures Pending(AcceptAll(b, current, first, frames), current) ==
      Added(Pending(b, current), current, current + |b.ring|, first, frames)
  {
    var b' := AcceptAll(b, current, first, frames);
    var added := Added(Pending(b, current), current, current + |b.ring|, first, frames);
    forall f | InReach(b, current, f)
      ensures (f in Pending(b', current) <==> f in added) && (f in added ==> added[f] == Pending(b', current)[f])
    {
      AcceptAllAt(b, current, first, frames, f);
    }
  }

  /** No record is of a frame that the ring has no room for yet. */
  ghost predicate NoneAhead(b: Buffer, current: nat) {
    forall i :: 0 <= i < |b.ring| && b.ring[i].frame.Some? ==> b.ring[i].frame.value < current + |b.ring|
  }

  lemma {:induction false} AcceptAllKeepsReach(b: Buffer, current: nat, first: nat, frames: seq<FrameInput>)
    requires |b.ring| > 0 && NoneAhead(b, current)
    ensures NoneAhead(AcceptAll(b, current, first, frames), current)
    ensures AcceptAll(b, current, first, frames).lastInput == b.lastInput
    decreases |frames|
  {
    if frames != [] {
      AcceptAllKeepsReach(b, current, first, frames[..|frames| - 1]);
    }
  }

  lemma ResolveAt(b: Buffer, current: nat, f: nat)
    requires |b.ring| > 0 && NoneAhead(b, current) && current < f <= current + |b.ring|
    ensures var b' := Resolve(b, current).0;
      |b'.ring| == |b.ring| && (Has(b', f) <==> Has(b, f) && f < current + |b.ring|)
        && (Has(b', f) ==> InputAt(b', f) == InputAt(b, f))
  {
    SlotsOfARing(current, f, |b.ring|);
  }

  /** Simulating the current frame uses its input, or the last one again, and takes it out of the map. */
  lemma ResolveIsMapRemove(b: Buffer, current: nat)
    requires |b.ring| > 0 && NoneAhead(b, current)
    ensures var (b', used) := Resolve(b, current);
      && |b'.ring| == |b.ring| && Pending(b', current + 1) == Pending(b, current) - {current}
      && NoneAhead(b', current + 1)
      && used == (if current in Pending(b, current) then Some(Pending(b, current)[current]) else b.lastInput)
      && b'.lastInput == used && !Has(b', current)
  {
    var (b', used) := Resolve(b, current);
    var rest := Pending(b, current) - {current};
    forall f | current < f <= current + |b.ring|
      ensures (f in Pending(b', current + 1) <==> f in rest) && (f in rest ==> rest[f] == Pending(b', current + 1)[f])
    {
      ResolveAt(b, current, f);
    }
  }

  // -------------------------------------------------------------------------------------------------- Whole runs

  /** A client's inputs (`log`), what the server keeps of them, the frames whose input arrived in time, and the input
      the server used at each frame it simulated, from `start` on. */
  datatype Line = Line(log: map<nat, FrameInput>, buffer: Buffer, start: nat, current: nat, inTime: set<nat>,
                       used: map<nat, Option<FrameInput>>)

  /** A message arrives at any time, or never, or twice. */
  datatype Step = Collects(frame: nat, input: FrameInput) | Delivers(m: Message) | Ticks

  /** A message of a client that predicted each frame once: the input it collected at every frame it describes. */
  ghost predicate Carries(log: map<nat, FrameInput>, m: Message) {
    forall i :: 0 <= i < |Expand(m.groups)| ==> IsOwn(log, m.first + i, Expand(m.groups)[i])
  }

  predicate IsOwn(log: map<nat, FrameInput>, f: nat, input: FrameInput) {
    f in log && log[f] == input
  }

  ghost predicate Enabled(s: Line, step: Step) {
    match step
    case Collects(frame, _) => frame !in s.log
    case Delivers(m) => Carries(s.log, m)
    case Ticks => true
  }

  /** The frames of a message that are in reach. */
  function Arriving(s: Line, m: Message): set<nat> {
    if m.count > MAX_INPUT_FRAMES then {}
    else set f | m.first <= f < m.first + |Usable(m.groups)| && InReach(s.buffer, s.current, f)
  }

  ghost function Next(s: Line, step: Step): Line
    requires |s.buffer.ring| > 0
  {
    match step
    case Collects(frame, input) => s.(log := s.log[frame := input])
    case Delivers(m) => s.(buffer := TakeMessage(s.buffer, s.current, m), inTime := s.inTime + Arriving(s, m))
    case Ticks =>
      var (buffer, used) := Resolve(s.buffer, s.current);
      s.(buffer := buffer, current := s.current + 1, used := s.used[s.current := used])
  }

  /** The server used the client's own input if it arrived in time, else what it used at the frame before. */
  ghost predicate UsedOk(s: Line, f: nat)
    requires s.start <= f < s.current && (forall k :: s.start <= k < s.current ==> k in s.used)
    requires forall k :: k in s.inTime ==> k in s.log
  {
    s.used[f] == if f in s.inTime then Some(s.log[f]) else LastUsed(s, f)
  }

  /** What was used before a frame. */
  ghost function LastUsed(s: Line, f: nat): Option<FrameInput>
    requires s.start <= f <= s.current && (forall k :: s.start <= k < s.current ==> k in s.used)
  {
    if f == s.start then None else s.used[f - 1]
  }

  /** The client's own inputs of the frames to simulate that arrived in time. */
  ghost function Expected(log: map<nat, FrameInput>, inTime: set<nat>, current: nat): map<nat, FrameInput> {
    map f | f in inTime && current <= f && f in log :: log[f]
  }

  ghost predicate Inv(s: Line) {
    && |s.buffer.ring| > 0 && s.start <= s.current && NoneAhead(s.buffer, s.current)
    && (forall k :: s.start <= k < s.current ==> k in s.used)
    && (forall k :: k in s.inTime ==> k in s.log && s.start <= k)
    && Pending(s.buffer, s.current) == Expected(s.log, s.inTime, s.current)
    && s.buffer.lastInput == LastUsed(s, s.current)
    && forall f :: s.start <= f < s.current ==> UsedOk(s, f)
  }

  ghost predicate Initial(s: Line) {
    && |s.buffer.ring| > 0 && s.current == s.start && s.inTime == {} && s.used == map[] && s.buffer.lastInput == None
    && forall i :: 0 <= i < |s.buffer.ring| ==> s.buffer.ring[i].frame.None?
  }

  lemma DeliversKeeps(s: Line, m: Message)
    requires Inv(s) && Carries(s.log, m)
    ensures Inv(Next(s, Delivers(m)))
  {
    var s' := Next(s, Delivers(m));
    TakeMessageKeeps(s, m);
    forall f | s.start <= f < s.current ensures UsedOk(s', f) {
      assert UsedOk(s, f);
    }
  }

  lemma TakeMessageKeeps(s: Line, m: Message)
    requires Inv(s) && Carries(s.log, m)
    ensures var b := TakeMessage(s.buffer, s.current, m);
      && |b.ring| == |s.buffer.ring| && NoneAhead(b, s.current) && b.lastInput == s.buffer.lastInput
      && Pending(b, s.current) == Expected(s.log, s.inTime + Arriving(s, m), s.current)
    ensures forall f :: f in Arriving(s, m) ==> f in s.log && s.start <= f
  {
    if m.count <= MAX_INPUT_FRAMES {
      AcceptAllKeepsReach(s.buffer, s.current, m.first, Usable(m.groups));
      AcceptAllIsMapUpdate(s.buffer, s.current, m.first, Usable(m.groups));
      UsableIsOwn(s.log, m);
      AddedIsExpected(s.log, s.inTime, s.current, s.current + |s.buffer.ring|, m.first, Usable(m.groups),
                      Arriving(s, m));
    } else {
      assert s.inTime + Arriving(s, m) == s.inTime;
    }
  }

  lemma UsableIsOwn(log: map<nat, FrameInput>, m: Message)
    requires Carries(log, m)
    ensures forall i :: 0 <= i < |Usable(m.groups)| ==> IsOwn(log, m.first + i, Usable(m.groups)[i])
  {
    UsableIsAll(m.groups);
    forall i | 0 <= i < |Usable(m.groups)| ensures IsOwn(log, m.first + i, Usable(m.groups)[i]) {
      assert IsOwn(log, m.first + i, Expand(m.groups)[i]);
    }
  }

  lemma AddedIsExpected(log: map<nat, FrameInput>, inTime: set<nat>, current: nat, reach: nat, first: nat,
                        frames: seq<FrameInput>, arriving: set<nat>)
    requires forall i :: 0 <= i < |frames| ==> IsOwn(log, first + i, frames[i])
    requires forall f :: f in arriving <==> first <= f < first + |frames| && current <= f < reach
    requires forall f :: f in inTime ==> f in log
    ensures forall f :: f in arriving ==> f in log
    ensures Added(Expected(log, inTime, current), current, reach, first, frames) ==
      Expected(log, inTime + arriving, current)
  {
    forall f: nat ensures OwnAt(log, first, frames, f) {
      if first <= f < first + |frames| { assert IsOwn(log, first + (f - first), frames[f - first]); }
    }
    forall f | f in arriving ensures f in log {
      assert OwnAt(log, first, frames, f);
    }
    var added, expected :=
      Added(Expected(log, inTime, current), current, reach, first, frames), Expected(log, inTime + arriving, current);
    forall f: nat ensures (f in added <==> f in expected) && (f in added ==> added[f] == expected[f]) {
      assert OwnAt(log, first, frames, f);
    }
  }

  predicate OwnAt(log: map<nat, FrameInput>, first: nat, frames: seq<FrameInput>, f: nat) {
    first <= f < first + |frames| ==> IsOwn(log, f, frames[f - first])
  }

  lemma TicksKeeps(s: Line)
    requires Inv(s)
    ensures Inv(Next(s, Ticks))
  {
    var s' := Next(s, Ticks);
    ResolveIsMapRemove(s.buffer, s.current);
    assert s'.inTime == s.inTime && s'.log == s.log && s'.start == s.start && s'.current == s.current + 1;
    forall f | s'.start <= f < s'.current ensures UsedOk(s', f) {
      if f < s.current { assert UsedOk(s, f); }
    }
  }

  lemma CollectsKeeps(s: Line, frame: nat, input: FrameInput)
    requires Inv(s) && frame !in s.log
    ensures Inv(Next(s, Collects(frame, input)))
  {
    var s' := Next(s, Collects(frame, input));
    forall f | s'.start <= f < s'.current ensures UsedOk(s', f) {
      assert UsedOk(s, f);
    }
  }

  ghost predicate Run(s: Line, steps: seq<Step>, s': Line)
    requires |s.buffer.ring| > 0
    decreases |steps|
  {
    if steps == [] then s' == s
    else Enabled(s, steps[0]) && |Next(s, steps[0]).buffer.ring| > 0 && Run(Next(s, steps[0]), steps[1..], s')
  }

  lemma {:induction false} RunKeeps(s: Line, steps: seq<Step>, s': Line)
    requires Inv(s) && Run(s, steps, s')
    ensures Inv(s')
    decreases |steps|
  {
    if steps != [] {
      match steps[0] {
        case Collects(frame, input) => CollectsKeeps(s, frame, input);
        case Delivers(m) => DeliversKeeps(s, m);
        case Ticks => TicksKeeps(s);
      }
      RunKeeps(Next(s, steps[0]), steps[1..], s');
    }
  }

  /** In every run, whatever is lost, repeated or out of order, the input the server used at a frame is the client's own
      one if a message with it arrived in time, else the one it used at the frame before. */
  lemma ServerUsesOwnInputs(s: Line, steps: seq<Step>, s': Line, f: nat)
    requires Initial(s) && Run(s, steps, s') && s'.start <= f < s'.current
    ensures f in s'.used && (f in s'.inTime ==> f in s'.log)
    ensures s'.used[f] == (if f in s'.inTime then Some(s'.log[f]) else if f == s'.start then None
                           else if f - 1 in s'.used then s'.used[f - 1] else None)
  {
    assert Pending(s.buffer, s.current) == map[];
    RunKeeps(s, steps, s');
    assert UsedOk(s', f);
  }

  /** What a client sends is taken whole: the frames it describes are its last ones, and no more than a message
      holds. */
  lemma OwnMessageIsWhole(log: map<nat, FrameInput>, first: nat, frames: seq<FrameInput>)
    requires |frames| <= MAX_INPUT_FRAMES && forall i :: 0 <= i < |frames| ==> IsOwn(log, first + i, frames[i])
    ensures var m := Message(first, |GroupsOf(frames)|, GroupsOf(frames));
      Carries(log, m) && m.count <= MAX_INPUT_FRAMES && Usable(m.groups) == frames
  {
    var groups := GroupsOf(frames);
    ExpandGroups(frames);
    UsableIsAll(groups);
    forall i | 0 <= i < |Expand(groups)| ensures IsOwn(log, first + i, Expand(groups)[i]) {
      assert IsOwn(log, first + i, frames[i]);
    }
  }

  /** No frame kept is newer than the newest one received. */
  ghost predicate KnowsNewest(b: Buffer) {
    forall i :: 0 <= i < |b.ring| && b.ring[i].frame.Some? ==>
      b.lastReceived.Some? && b.ring[i].frame.value <= b.lastReceived.value
  }

  function Newest(before: Option<nat>, first: nat, end: nat): Option<nat> {
    if end <= first || (before.Some? && before.value >= end - 1) then before else Some(end - 1)
  }

  /** The newest frame received is the newest of the frames described that aren't too early, late ones included; it
      tells the client how far ahead its inputs are. */
  lemma {:induction false} NewestIsKnown(b: Buffer, current: nat, first: nat, frames: seq<FrameInput>)
    requires |b.ring| > 0 && KnowsNewest(b)
    ensures var b', reach := AcceptAll(b, current, first, frames), current + |b.ring|;
      && KnowsNewest(b')
      && b'.lastReceived == Newest(b.lastReceived, first, if first + |frames| < reach then first + |frames| else reach)
    decreases |frames|
  {
    if frames != [] {
      var before := frames[..|frames| - 1];
      NewestIsKnown(b, current, first, before);
      OneNewer(AcceptAll(b, current, first, before), current, first + |before|, frames[|before|]);
    }
  }

  lemma OneNewer(b: Buffer, current: nat, frame: nat, input: FrameInput)
    requires |b.ring| > 0 && KnowsNewest(b)
    ensures var b' := Accept(b, current, frame, input);
      && KnowsNewest(b')
      && b'.lastReceived ==
           if frame < current + |b.ring| then Newest(b.lastReceived, frame, frame + 1) else b.lastReceived
  {}

  /** An input that comes in time is used: from any start, the client collects the input of the frame to simulate next,
      and says so. */
  lemma OwnInputIsUsed(s: Line, input: FrameInput) returns (s': Line)
    requires Initial(s) && s.current !in s.log
    ensures Run(s, [Collects(s.current, input), Delivers(Message(s.current, 1, [Group(input, 0)])), Ticks], s')
    ensures s'.current == s.current + 1 && s.current in s'.used && s'.used[s.current] == Some(input)
  {
    var m := Message(s.current, 1, [Group(input, 0)]);
    OneGroup(input);
    var s1 := Next(s, Collects(s.current, input));
    CollectsKeeps(s, s.current, input);
    assert Pending(s.buffer, s.current) == map[];
    var s2 := Next(s1, Delivers(m));
    s' := Next(s2, Ticks);
    assert Accept(s.buffer, s.current, s.current, input) == AcceptAll(s.buffer, s.current, s.current, [input]) by {
      assert [input][..0] == [];
    }
    var steps := [Collects(s.current, input), Delivers(m), Ticks];
    assert steps[1..] == [Delivers(m), Ticks] && steps[1..][1..] == [Ticks] && steps[1..][1..][1..] == [];
    assert Run(s2, [Ticks], s') && Run(s1, [Delivers(m), Ticks], s');
  }

  lemma OneGroup(input: FrameInput)
    ensures Expand([Group(input, 0)]) == [input] && Usable([Group(input, 0)]) == [input]
  {
    assert [Group(input, 0)][..0] == [];
    assert Repeat(input, 1) == [input];
  }

  // ---------------------------------------------------------------------------------------------------- The buffer

  /** What the server keeps of a client, as it works: a ring updated in place. */
  class InputBuffer {
    const inputs: array<InputRecord>
    var lastReceived: Option<nat>
    var lastInput: Option<FrameInput>

    constructor (historySize: nat)
      requires historySize > 0
      ensures View() == Buffer(seq(historySize, i => InputRecord(None, [])), None, None) && fresh(inputs)
    {
      inputs := new InputRecord[historySize](i => InputRecord(None, []));
      lastReceived, lastInput := None, None;
    }

    ghost function View(): (b: Buffer)
      reads this, inputs
      ensures |b.ring| == inputs.Length
    {
      Buffer(inputs[..], lastReceived, lastInput)
    }

    method HandleInputs(current: nat, m: Message)
      requires inputs.Length > 0
      modifies this`lastReceived, inputs
      ensures View() == TakeMessage(old(View()), current, m)
    {
      if m.count > MAX_INPUT_FRAMES {
        return;
      }
      ghost var before := View();
      var group: nat, index: nat := 0, 0;
      while group < |m.groups| && index + m.groups[group].duplicates + 1 <= MAX_INPUT_FRAMES
        invariant 0 <= group <= |m.groups| && GroupsTaken(before, View(), current, m, group, index)
      {
        ghost var taken := View();
        TakeGroup(current, m.first + index, m.groups[group]);
        OneMoreTaken(before, taken, View(), current, m, group, index);
        group, index := group + 1, index + m.groups[group].duplicates + 1;
      }
      if group < |m.groups| {
        RestIsUnusable(m.groups, group);
      } else {
        assert m.groups[..group] == m.groups;
      }
    }

    /** The frames of one group. */
    method TakeGroup(current: nat, first: nat, g: Group)
      requires inputs.Length > 0
      modifies this`lastReceived, inputs
      ensures View() == AcceptAll(old(View()), current, first, Repeat(g.input, g.duplicates + 1))
    {
      var copy := 0;
      while copy <= g.duplicates
        invariant 0 <= copy <= g.duplicates + 1
        invariant View() == AcceptAll(old(View()), current, first, Repeat(g.input, copy))
      {
        assert Repeat(g.input, copy + 1)[..copy] == Repeat(g.input, copy);
        AcceptFrame(current, first + copy, g.input);
        copy := copy + 1;
      }
    }

    method AcceptFrame(current: nat, frame: nat, input: FrameInput)
      requires inputs.Length > 0
      modifies this`lastReceived, inputs
      ensures View() == Accept(old(View()), current, frame, input)
    {
      var isNew := lastReceived.None? || lastReceived.value < frame;
      if frame < current {
        if isNew {
          lastReceived := Some(frame);
        }
        return;
      }
      if frame >= current + inputs.Length {
        return;
      }
      var slot := Slot(frame, inputs.Length);
      if inputs[slot].frame == Some(frame) {
        return;
      }
      inputs[slot] := InputRecord(Some(frame), input);
      if isNew {
        lastReceived := Some(frame);
      }
    }

    method ResolveInput(frame: nat) returns (used: Option<FrameInput>)
      requires inputs.Length > 0
      modifies this`lastInput, inputs
      ensures (View(), used) == Resolve(old(View()), frame)
    {
      var slot := Slot(frame, inputs.Length);
      if inputs[slot].frame == Some(frame) {
        lastInput := Some(inputs[slot].input);
        inputs[slot] := inputs[slot].(frame := None);
        used := lastInput;
      } else if lastInput.Some? {
        used := lastInput;
      } else {
        used := None;
      }
    }
  }

  lemma OneMoreGroup(groups: seq<Group>, i: nat)
    requires i < |groups|
    ensures groups[..i + 1][..i] == groups[..i] && groups[..i + 1][i] == groups[i]
    ensures Expand(groups[..i + 1]) == Expand(groups[..i]) + Repeat(groups[i].input, groups[i].duplicates + 1)
    ensures IsUsable(groups[..i]) ==> |Usable(groups[..i])| == |Expand(groups[..i])|
  {
    assert groups[..i + 1][..i] == groups[..i];
    UsableIsAll(groups[..i]);
  }

  /** The first `i` groups of a message were taken: `index` frames. */
  ghost predicate GroupsTaken(before: Buffer, taken: Buffer, current: nat, m: Message, i: nat, index: nat)
    requires |before.ring| > 0 && i <= |m.groups|
  {
    && IsUsable(m.groups[..i]) && index == |Usable(m.groups[..i])|
    && taken == AcceptAll(before, current, m.first, Usable(m.groups[..i]))
  }

  lemma OneMoreTaken(before: Buffer, taken: Buffer, more: Buffer, current: nat, m: Message, i: nat, index: nat)
    requires |before.ring| > 0 && i < |m.groups| && index + m.groups[i].duplicates + 1 <= MAX_INPUT_FRAMES
    requires GroupsTaken(before, taken, current, m, i, index)
    requires more == AcceptAll(taken, current, m.first + index, Repeat(m.groups[i].input, m.groups[i].duplicates + 1))
    ensures GroupsTaken(before, more, current, m, i + 1, index + m.groups[i].duplicates + 1)
  {
    var g := m.groups[i];
    OneMoreGroup(m.groups, i);
    UsableIsAll(m.groups[..i + 1]);
    UsableIsAll(m.groups[..i]);
    AcceptInTurn(before, current, m.first, Usable(m.groups[..i]), Repeat(g.input, g.duplicates + 1));
  }

  /** After the first group that is one too many, nothing is taken. */
  lemma {:induction false} RestIsUnusable(groups: seq<Group>, i: nat)
    requires i < |groups| && IsUsable(groups[..i])
      && |Usable(groups[..i])| + groups[i].duplicates + 1 > MAX_INPUT_FRAMES
    ensures Usable(groups) == Usable(groups[..i])
    decreases |groups|
  {
    var last := |groups| - 1;
    OneMoreGroup(groups, i);
    if i < last {
      assert groups[..last][..i] == groups[..i];
      RestIsUnusable(groups[..last], i);
      StaysUnusable(groups, i + 1);
    } else {
      assert groups[..last] == groups[..i];
    }
  }

  lemma {:induction false} StaysUnusable(groups: seq<Group>, i: nat)
    requires i <= |groups| && !IsUsable(groups[..i])
    ensures !IsUsable(groups) && (i < |groups| ==> !IsUsable(groups[..|groups| - 1]))
    decreases |groups|
  {
    if i < |groups| {
      assert groups[..|groups| - 1][..i] == groups[..i];
      StaysUnusable(groups[..|groups| - 1], i);
    } else {
      assert groups[..i] == groups;
    }
  }

  /** Frames in a row, taken in two goes. */
  lemma {:induction false} AcceptInTurn(b: Buffer, current: nat, first: nat, xs: seq<FrameInput>, ys: seq<FrameInput>)
    requires |b.ring| > 0
    ensures AcceptAll(AcceptAll(b, current, first, xs), current, first + |xs|, ys) ==
      AcceptAll(b, current, first, xs + ys)
    decreases |ys|
  {
    if ys == [] {
      assert xs + ys == xs;
    } else {
      var before := ys[..|ys| - 1];
      AcceptInTurn(b, current, first, xs, before);
      assert (xs + ys)[..|xs + ys| - 1] == xs + before;
    }
  }
}
