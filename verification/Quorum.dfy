/** Who may take a lost role, and why the process that had it doesn't keep a quorum by then: both need one, two quorums
    share a node, and that node would see the process. */
module Quorum {
  import opened Snapshots

  type Node = nat

  /** Names a process of a node; 0 is unknown. */
  type Boot = nat

  datatype Role = Registry | Clock

  datatype View = Unknown | Seen | Lost

  /** What a node says of the roles: who has them, the processes it knows them by, and whether it sees those. */
  datatype RoleStatus = RoleStatus(term: nat, registry: Node, clock: Node, registryBoot: Boot, registryView: View,
                                   clockBoot: Boot, clockView: View)
  {
    function Boot(r: Role): Boot { if r.Registry? then registryBoot else clockBoot }

    function View(r: Role): View { if r.Registry? then registryView else clockView }
  }

  /** Another node, as a node sees it: whether it passed the handshake, its process, and its last status. */
  datatype Peer = Peer(ready: bool, boot: Boot, status: Option<RoleStatus>)

  datatype State = State(local: Node, boot: Boot, peers: map<Node, Peer>, term: nat, registry: Node, clock: Node,
                         registryBoot: Boot, clockBoot: Boot, settling: bool)
  {
    /** The node that has a role, and its process, as this node knows them. */
    function Holder(r: Role): Node { if r.Registry? then registry else clock }

    function Boot(r: Role): Boot { if r.Registry? then registryBoot else clockBoot }

    predicate IsPeerReady(n: Node) { n == local || (n in peers && peers[n].ready) }

    function ReadyPeers(): set<Node> { set n | n in peers && peers[n].ready }

    function NodeBoot(n: Node): Boot {
      if n == local then boot else if n in peers && peers[n].ready then peers[n].boot else 0
    }

    /** is_role_process_present. */
    predicate IsPresent(n: Node, b: Boot) { b != 0 && NodeBoot(n) == b }

    function RoleView(n: Node, b: Boot): View {
      if b == 0 then Unknown else if IsPresent(n, b) then Seen else Lost
    }

    predicate IsVacant(n: Node, b: Boot) { if b != 0 then !IsPresent(n, b) else term != 0 && !IsPeerReady(n) }

    predicate HasQuorum(q: nat) { q <= 1 || |ReadyPeers()| + 1 >= q }

    /** Whether this process has a role. */
    predicate Has(r: Role) { Holder(r) == local && Boot(r) == boot }

    /** Whether this process answers as the registry, or has the clock with a quorum. */
    predicate Acts(r: Role, q: nat) { Has(r) && HasQuorum(q) && (r.Registry? ==> !settling) }

    function MakeStatus(): RoleStatus {
      RoleStatus(term, registry, clock, registryBoot, RoleView(registry, registryBoot), clockBoot,
                 RoleView(clock, clockBoot))
    }

    /** The first candidate that is ready, if any. */
    function FirstReady(candidates: seq<Node>): Option<Node> {
      if candidates == [] then None
      else if IsPeerReady(candidates[0]) then Some(candidates[0])
      else FirstReady(candidates[1..])
    }

    /** get_role_successor gives this node. */
    predicate IsSuccessor(candidates: seq<Node>) {
      if candidates == [] then forall n :: n in ReadyPeers() ==> local <= n
      else if FirstReady(candidates).Some? then FirstReady(candidates) == Some(local)
      else if RoleView(registry, registryBoot) == Lost && IsPeerReady(registry) then registry == local
      else RoleView(clock, clockBoot) == Lost && IsPeerReady(clock) && clock == local
    }

    /** What another node says doesn't keep this one from taking the roles it lost. */
    predicate Allows(status: Option<RoleStatus>, registryLost: bool, clockLost: bool) {
      status.Some? && (
        var t := status.value;
        && t.term == term && t.registry == registry && t.clock == clock
        && !(registryLost && t.registryView == Seen && (registryBoot == 0 || t.registryBoot == registryBoot))
        && !(clockLost && t.clockView == Seen && (clockBoot == 0 || t.clockBoot == clockBoot)))
    }

    /** fill_vacant_roles: whether this node takes what is vacant now. */
    predicate TakesRoles(candidates: seq<Node>, q: nat) {
      var registryLost, clockLost := IsVacant(registry, registryBoot), IsVacant(clock, clockBoot);
      && (registryLost || clockLost) && IsSuccessor(candidates) && HasQuorum(q)
      && forall n :: n in ReadyPeers() ==> Allows(peers[n].status, registryLost, clockLost)
    }

    predicate Takes(r: Role, candidates: seq<Node>, q: nat) {
      TakesRoles(candidates, q) && IsVacant(Holder(r), Boot(r))
    }

    /** This node once it took what is vacant. A registry that moves settles first. */
    function Filled(): State {
      var registryLost, clockLost := IsVacant(registry, registryBoot), IsVacant(clock, clockBoot);
      this.(term := term + 1,
            registry := if registryLost then local else registry,
            registryBoot := if registryLost then boot else registryBoot,
            clock := if clockLost then local else clock, clockBoot := if clockLost then boot else clockBoot,
            settling := registryLost || settling)
    }

    /** learn_role_boots, for a role: the process this node knows after another one, with the same roles, said which one
        it knows. */
    function Learn(r: Role, told: Boot): Boot {
      if told != 0 && told != Boot(r) && (Boot(r) == 0 || IsPresent(Holder(r), Boot(r))) then told else Boot(r)
    }
  }

  /** The nodes that are running, by id. */
  type Mesh = map<Node, State>

  /** Links work both ways, and each end knows the other's process. */
  ghost predicate Linked(s: Mesh) {
    forall n :: n in s ==> s[n].local == n && s[n].boot != 0 && forall p :: p in s[n].ReadyPeers() ==> LinkedTo(s, n, p)
  }

  predicate LinkedTo(s: Mesh, n: Node, p: Node)
    requires n in s
  {
    p != n && p in s && n in s[p].ReadyPeers() && p in s[n].peers && s[n].peers[p].boot == s[p].boot
  }

  /** What linked nodes had to tell each other of the roles was taken: they know the same roles, each has the other's
      status as it is, and neither would learn another process from it. */
  ghost predicate Settled(s: Mesh) {
    forall n, p :: n in s && p in s && p in s[n].ReadyPeers() ==> Told(s[n], s[p], p)
  }

  predicate Told(n: State, p: State, id: Node) {
    && p.term == n.term && p.registry == n.registry && p.clock == n.clock
    && id in n.peers && n.peers[id].status == Some(p.MakeStatus())
    && n.Learn(Registry, p.registryBoot) == n.registryBoot && n.Learn(Clock, p.clockBoot) == n.clockBoot
  }

  /** Two sets that each hold more than half of the nodes share one. */
  lemma QuorumsMeet(all: set<Node>, a: set<Node>, b: set<Node>, q: nat)
    requires a <= all && b <= all && |a| >= q && |b| >= q && 2 * q > |all|
    ensures exists n :: n in a && n in b
  {
    SubsetSize(a + b, all);
    assert |a + b| + |a * b| == |a| + |b|;
    var n :| n in a * b;
  }

  lemma SubsetSize(a: set<Node>, b: set<Node>)
    requires a <= b
    ensures |a| <= |b|
  {
    assert |b| == |a| + |b - a| by { assert a + (b - a) == b; }
  }

  ghost predicate HasRole(s: Mesh, h: Node, r: Role) {
    h in s && s[h].Has(r)
  }

  /** A process that has a role, and every node linked to it, says so. */
  lemma NeighboursSeeIt(s: Mesh, h: Node, x: Node, r: Role)
    requires Linked(s) && Settled(s) && HasRole(s, h, r) && (x == h || x in s[h].ReadyPeers())
    ensures x in s && s[x].Holder(r) == h && s[x].Boot(r) == s[h].boot && s[x].IsPresent(h, s[h].boot)
    ensures s[x].MakeStatus().View(r) == Seen
  {
    if x != h {
      assert LinkedTo(s, h, x) && LinkedTo(s, x, h);
      assert Told(s[h], s[x], x) && Told(s[x], s[h], h);
    }
  }

  /** A node that shares a neighbour with the process that has a role, or is one, doesn't take it. */
  lemma SharedNeighbourObjects(s: Mesh, n: Node, h: Node, x: Node, r: Role, candidates: seq<Node>, q: nat)
    requires Linked(s) && Settled(s) && HasRole(s, h, r) && n in s
    requires x == h || x in s[h].ReadyPeers()
    requires x == n || x in s[n].ReadyPeers()
    ensures !s[n].Takes(r, candidates, q)
  {
    NeighboursSeeIt(s, h, x, r);
    if x != n {
      assert LinkedTo(s, n, x) && LinkedTo(s, x, n);
      assert Told(s[n], s[x], x) && Told(s[x], s[n], n);
    }
  }

  /** Quorum intersection: when a node takes a vacant role of a mesh whose nodes told each other what they see, and the
      quorum is more than half of them, no process that had the role has its quorum. */
  lemma TakenRoleCantAct(s: Mesh, n: Node, h: Node, r: Role, candidates: seq<Node>, q: nat)
    requires Linked(s) && Settled(s) && n in s && h in s && 2 * q > |s|
    requires s[n].Takes(r, candidates, q)
    ensures !s[h].Acts(r, q)
  {
    if s[h].Acts(r, q) {
      var a, b := s[n].ReadyPeers() + {n}, s[h].ReadyPeers() + {h};
      NeighbourhoodSize(s, n, q);
      NeighbourhoodSize(s, h, q);
      QuorumsMeet(s.Keys, a, b, q);
      var x :| x in a && x in b;
      SharedNeighbourObjects(s, n, h, x, r, candidates, q);
    }
  }

  lemma NeighbourhoodSize(s: Mesh, n: Node, q: nat)
    requires Linked(s) && n in s && s[n].HasQuorum(q)
    ensures s[n].ReadyPeers() + {n} <= s.Keys && |s[n].ReadyPeers() + {n}| >= q
  {
    forall p | p in s[n].ReadyPeers() ensures p in s && p != n {
      assert LinkedTo(s, n, p);
    }
    assert |s[n].ReadyPeers() + {n}| == |s[n].ReadyPeers()| + 1;
  }

  // ---------------------------------------------------------------------------------------------- How many are enough

  /** No node takes a role while another acts with it, in any mesh of `n` nodes that told each other what they see. */
  ghost predicate IsSafe(n: nat, r: Role, candidates: seq<Node>, q: nat) {
    forall s: Mesh, a: Node, h: Node ::
      |s| == n && Linked(s) && Settled(s) && a in s && h in s && s[a].Takes(r, candidates, q) ==> !s[h].Acts(r, q)
  }

  /** Whatever the role and the candidates, a quorum is safe if and only if it's more than half the nodes, or there's
      one node. Another one fails in a mesh that split in two. */
  lemma QuorumIsExact(n: nat, r: Role, candidates: seq<Node>, q: nat)
    ensures IsSafe(n, r, candidates, q) <==> 2 * q > n || n < 2
  {
    if 2 * q > n || n < 2 {
      forall s: Mesh, a: Node, h: Node
        | |s| == n && Linked(s) && Settled(s) && a in s && h in s && s[a].Takes(r, candidates, q)
        ensures !s[h].Acts(r, q)
      {
        if 2 * q > n {
          TakenRoleCantAct(s, a, h, r, candidates, q);
        } else {
          OnlyNode(s, a, h);
          if s[h].Acts(r, q) { SharedNeighbourObjects(s, a, h, h, r, candidates, q); }
        }
      }
    } else {
      var first := if candidates == [] then 1 else candidates[0];
      SplitIsUnsafe(first, first + (if q == 0 then 1 else q), first + n, r, candidates, q);
    }
  }

  lemma OnlyNode(s: Mesh, a: Node, h: Node)
    requires |s| < 2 && a in s && h in s
    ensures a == h
  {
    if a != h {
      SubsetSize({a, h}, s.Keys);
    }
  }

  /** The nodes from `lo` on, before `hi`. */
  function Range(lo: nat, hi: nat): (r: set<nat>)
    ensures forall i :: i in r <==> lo <= i < hi
    ensures lo <= hi ==> |r| == hi - lo
    decreases hi - lo
  {
    if lo >= hi then {} else {lo} + Range(lo + 1, hi)
  }

  /** The side of a node, when the nodes before `holder` and the ones from it on are cut off from each other. */
  function Side(first: nat, holder: nat, end: nat, i: Node): set<Node> {
    if i < holder then Range(first, holder) else Range(holder, end)
  }

  /** The holder has the registry and the clock, and every node knows its process; the ones on the other side lost
      it. */
  function SplitStatus(holder: nat, i: Node): RoleStatus {
    var view := if i < holder then Lost else Seen;
    RoleStatus(0, holder, holder, holder + 1, view, holder + 1, view)
  }

  function SplitNode(first: nat, holder: nat, end: nat, i: Node): State {
    State(i, i + 1, map p | p in Side(first, holder, end, i) - {i} :: Peer(true, p + 1, Some(SplitStatus(holder, p))),
          0, holder, holder, holder + 1, holder + 1, false)
  }

  function Split(first: nat, holder: nat, end: nat): Mesh {
    map i | i in Range(first, end) :: SplitNode(first, holder, end, i)
  }

  lemma SplitNodeIs(first: nat, holder: nat, end: nat, i: Node)
    requires first < holder < end && first <= i < end
    ensures SplitNode(first, holder, end, i).ReadyPeers() == Side(first, holder, end, i) - {i}
    ensures SplitNode(first, holder, end, i).MakeStatus() == SplitStatus(holder, i)
    ensures forall q: nat :: q <= |Side(first, holder, end, i)| ==> SplitNode(first, holder, end, i).HasQuorum(q)
  {
    var s := SplitNode(first, holder, end, i);
    assert s.ReadyPeers() == Side(first, holder, end, i) - {i};
    assert |Side(first, holder, end, i) - {i}| == |Side(first, holder, end, i)| - 1;
  }

  lemma SplitIsSettled(first: nat, holder: nat, end: nat)
    requires first < holder < end
    ensures Linked(Split(first, holder, end)) && Settled(Split(first, holder, end))
  {
    var s := Split(first, holder, end);
    forall i, p | i in s && p in s[i].ReadyPeers()
      ensures LinkedTo(s, i, p) && Told(s[i], s[p], p)
    {
      SplitNodeIs(first, holder, end, i);
      SplitNodeIs(first, holder, end, p);
    }
  }

  lemma TakesAfterSplit(first: nat, holder: nat, end: nat, r: Role, candidates: seq<Node>, q: nat)
    requires first < holder < end && q <= holder - first
    requires candidates == [] || candidates[0] == first
    ensures SplitNode(first, holder, end, first).Takes(r, candidates, q)
  {
    var s := SplitNode(first, holder, end, first);
    SplitNodeIs(first, holder, end, first);
    forall p | p in s.ReadyPeers() ensures s.Allows(s.peers[p].status, true, true) && s.local <= p {
      assert s.peers[p].status == Some(SplitStatus(holder, p));
    }
    assert s.HasQuorum(q) && s.IsSuccessor(candidates);
  }

  /** In a mesh that split, a node of the side that lost the roles takes them, and the other side's acts. */
  lemma SplitIsUnsafe(first: nat, holder: nat, end: nat, r: Role, candidates: seq<Node>, q: nat)
    requires first < holder < end && q <= holder - first && q <= end - holder
    requires candidates == [] || candidates[0] == first
    ensures !IsSafe(end - first, r, candidates, q)
  {
    var s := Split(first, holder, end);
    SplitIsSettled(first, holder, end);
    assert s.Keys == Range(first, end);
    assert |s| == |s.Keys|;
    SplitNodeIs(first, holder, end, holder);
    TakesAfterSplit(first, holder, end, r, candidates, q);
    assert s[first].Takes(r, candidates, q) && s[holder].Acts(r, q);
  }

  // ------------------------------------------------------------------------------------------------- How many take it

  /** Two linked nodes don't both take what is vacant: they have the same successor. */
  lemma LinkedTakersAreOne(s: Mesh, a: Node, b: Node, candidates: seq<Node>, q: nat)
    requires Linked(s) && Settled(s) && a in s && b in s && (a == b || b in s[a].ReadyPeers())
    requires s[a].TakesRoles(candidates, q) && s[b].TakesRoles(candidates, q)
    ensures a == b
  {
    if a != b {
      assert LinkedTo(s, a, b) && LinkedTo(s, b, a);
      assert Told(s[a], s[b], b) && Told(s[b], s[a], a);
      BothFirst(s[a], s[b], candidates);
    }
  }

  lemma {:induction false} BothFirst(a: State, b: State, candidates: seq<Node>)
    requires a.IsPeerReady(b.local) && b.IsPeerReady(a.local)
    ensures a.FirstReady(candidates) == Some(a.local) && b.FirstReady(candidates) == Some(b.local) ==>
      a.local == b.local
    ensures a.FirstReady(candidates) == Some(a.local) ==> b.FirstReady(candidates).Some?
    ensures b.FirstReady(candidates) == Some(b.local) ==> a.FirstReady(candidates).Some?
  {
    if candidates != [] {
      BothFirst(a, b, candidates[1..]);
    }
  }

  /** At most one node takes a role, in any mesh of `n` nodes that told each other what they see. */
  ghost predicate IsUnique(n: nat, r: Role, q: nat) {
    forall candidates, s: Mesh, a: Node, b: Node ::
      (|s| == n && Linked(s) && Settled(s) && a in s && b in s
       && s[a].Takes(r, candidates, q) && s[b].Takes(r, candidates, q)) ==> a == b
  }

  /** Nodes that aren't linked may pick different successors, whatever the majority: a quorum makes the one who takes a
      role unique if and only if it's all the nodes, or there's one. (Two of them announce the same term, which
      `Roles` orders.) */
  lemma UniqueIsExact(n: nat, r: Role, q: nat)
    ensures IsUnique(n, r, q) <==> q >= n || n < 2
  {
    if q >= n || n < 2 {
      forall candidates, s: Mesh, a: Node, b: Node
        | |s| == n && Linked(s) && Settled(s) && a in s && b in s
          && s[a].Takes(r, candidates, q) && s[b].Takes(r, candidates, q)
        ensures a == b
      {
        if n < 2 {
          OnlyNode(s, a, b);
        } else {
          SeesEveryone(s, a, q);
          LinkedTakersAreOne(s, a, b, candidates, q);
        }
      }
    } else {
      TwoTake(n, r, q);
    }
  }

  lemma SeesEveryone(s: Mesh, a: Node, q: nat)
    requires Linked(s) && a in s && s[a].HasQuorum(q) && q >= |s|
    ensures s[a].ReadyPeers() + {a} == s.Keys
  {
    NeighbourhoodSize(s, a, q);
    var seen := s[a].ReadyPeers() + {a};
    assert |s.Keys - seen| == |s.Keys| - |seen|;
  }

  /** Nodes 1 and 2 aren't linked, the others are linked to every one. */
  function LinksOf(n: nat, i: Node): set<Node> {
    Range(1, n + 1) - (if i <= 2 then {1, 2} else {i})
  }

  /** Node 0 had the roles, and all of them lost it. */
  const LOST: RoleStatus := RoleStatus(0, 0, 0, 1, Lost, 1, Lost)

  function LeftNode(n: nat, i: Node): State {
    State(i, i + 1, map p | p in LinksOf(n, i) :: Peer(true, p + 1, Some(LOST)), 0, 0, 0, 1, 1, false)
  }

  function LeftMesh(n: nat): Mesh {
    map i | i in Range(1, n + 1) :: LeftNode(n, i)
  }

  lemma LeftNodeIs(n: nat, i: Node)
    requires 1 <= i <= n && 2 <= n
    ensures LeftNode(n, i).ReadyPeers() == LinksOf(n, i) && LeftNode(n, i).MakeStatus() == LOST
    ensures |LinksOf(n, i)| == (if i <= 2 then n - 2 else n - 1)
  {
    assert LeftNode(n, i).ReadyPeers() == LinksOf(n, i);
    assert {1, 2} <= Range(1, n + 1) && i in Range(1, n + 1);
    assert |{1, 2}| == 2;
  }

  lemma LeftMeshIsSettled(n: nat)
    requires 2 <= n
    ensures Linked(LeftMesh(n)) && Settled(LeftMesh(n)) && |LeftMesh(n)| == n
  {
    var s := LeftMesh(n);
    assert s.Keys == Range(1, n + 1);
    assert |s| == |s.Keys|;
    forall i, p | i in s && p in s[i].ReadyPeers()
      ensures LinkedTo(s, i, p) && Told(s[i], s[p], p)
    {
      LeftNodeIs(n, i);
      LeftTold(n, i, p);
    }
  }

  lemma LeftTold(n: nat, i: Node, p: Node)
    requires 2 <= n && 1 <= i <= n && p in LinksOf(n, i)
    ensures 1 <= p <= n && p != i && i in LinksOf(n, p) && Told(LeftNode(n, i), LeftNode(n, p), p)
    ensures p in LeftNode(n, i).peers && LeftNode(n, i).peers[p].boot == LeftNode(n, p).boot
    ensures i in LeftNode(n, p).ReadyPeers()
  {
    LeftNodeIs(n, p);
  }

  lemma FirstTwoTake(n: nat, r: Role, q: nat, i: Node)
    requires 2 <= n && q < n && 1 <= i <= 2
    ensures LeftNode(n, i).Takes(r, [], q)
  {
    var s := LeftNode(n, i);
    LeftNodeIs(n, i);
    forall p | p in s.ReadyPeers() ensures s.Allows(s.peers[p].status, true, true) && s.local <= p {
      assert s.peers[p].status == Some(LOST);
    }
    assert s.HasQuorum(q) && s.IsSuccessor([]);
  }

  lemma TwoTake(n: nat, r: Role, q: nat)
    requires 2 <= n && q < n
    ensures !IsUnique(n, r, q)
  {
    var s := LeftMesh(n);
    LeftMeshIsSettled(n);
    FirstTwoTake(n, r, q, 1);
    FirstTwoTake(n, r, q, 2);
    assert s[1].Takes(r, [], q) && s[2].Takes(r, [], q);
  }

  // ---------------------------------------------------------------------------------------------------- Who takes them

  ghost predicate IsComplete(s: Mesh) {
    forall n, p :: n in s && p in s && n != p ==> p in s[n].ReadyPeers()
  }

  /** Whether a role's process isn't in the mesh: the one a node knows, or, once the roles moved, the node of one that
      it doesn't know. */
  predicate IsGone(s: Mesh, a: Node, r: Role)
    requires a in s
  {
    var holder, known := s[a].Holder(r), s[a].Boot(r);
    if known != 0 then !(holder in s && s[holder].boot == known) else s[a].term != 0 && holder !in s
  }

  predicate ComesBack(s: Mesh, a: Node, r: Role)
    requires a in s
  {
    s[a].Boot(r) != 0 && IsGone(s, a, r) && s[a].Holder(r) in s
  }

  /** The successor, from who is in the mesh: the lowest node, or the first candidate; without one, the node of a lost
      role that is back. */
  ghost predicate IsNext(s: Mesh, a: Node, candidates: seq<Node>)
    requires a in s
  {
    if candidates == [] then forall n :: n in s ==> a <= n
    else if exists k :: 0 <= k < |candidates| && candidates[k] in s
    then exists k :: IsFirst(s, candidates, k) && candidates[k] == a
    else if ComesBack(s, a, Registry) then s[a].registry == a
    else ComesBack(s, a, Clock) && s[a].clock == a
  }

  ghost predicate IsFirst(s: Mesh, candidates: seq<Node>, k: int) {
    0 <= k < |candidates| && candidates[k] in s && forall j :: 0 <= j < k ==> candidates[j] !in s
  }

  lemma ReadyIsInMesh(s: Mesh, a: Node, n: Node)
    requires Linked(s) && IsComplete(s) && a in s
    ensures s[a].IsPeerReady(n) <==> n in s
    ensures s[a].NodeBoot(n) == if n in s then s[n].boot else 0
    ensures n in s[a].ReadyPeers() <==> n in s && n != a
  {
    if n in s[a].ReadyPeers() { assert LinkedTo(s, a, n); }
    if n in s && n != a { assert n in s[a].ReadyPeers(); }
  }

  lemma {:induction false} FirstIsFirst(s: Mesh, a: Node, candidates: seq<Node>)
    requires Linked(s) && IsComplete(s) && a in s
    ensures s[a].FirstReady(candidates).Some? <==> exists k :: 0 <= k < |candidates| && candidates[k] in s
    ensures s[a].FirstReady(candidates) == Some(a) <==> exists k :: IsFirst(s, candidates, k) && candidates[k] == a
  {
    if candidates != [] {
      ReadyIsInMesh(s, a, candidates[0]);
      if candidates[0] in s {
        assert IsFirst(s, candidates, 0);
      } else {
        FirstIsFirst(s, a, candidates[1..]);
        if k :| 0 <= k < |candidates| && candidates[k] in s { assert candidates[1..][k - 1] in s; }
        if k :| IsFirst(s, candidates, k) && candidates[k] == a { assert IsFirst(s, candidates[1..], k - 1); }
        if k :| IsFirst(s, candidates[1..], k) && candidates[1..][k] == a { assert IsFirst(s, candidates, k + 1); }
      }
    }
  }

  lemma VacantIsGone(s: Mesh, a: Node, r: Role)
    requires Linked(s) && IsComplete(s) && a in s
    ensures s[a].IsVacant(s[a].Holder(r), s[a].Boot(r)) <==> IsGone(s, a, r)
    ensures s[a].RoleView(s[a].Holder(r), s[a].Boot(r)) == Lost <==> s[a].Boot(r) != 0 && IsGone(s, a, r)
  {
    ReadyIsInMesh(s, a, s[a].Holder(r));
  }

  /** Linked nodes agree on what is gone. */
  lemma GoneForAll(s: Mesh, a: Node, b: Node, r: Role)
    requires Linked(s) && Settled(s) && IsComplete(s) && a in s && b in s
    ensures IsGone(s, a, r) ==> IsGone(s, b, r)
  {
    if a != b {
      assert Told(s[a], s[b], b) && Told(s[b], s[a], a);
      VacantIsGone(s, a, r);
      VacantIsGone(s, b, r);
      ReadyIsInMesh(s, a, s[a].Holder(r));
      ReadyIsInMesh(s, b, s[b].Holder(r));
    }
  }

  lemma NoneObjects(s: Mesh, a: Node, p: Node)
    requires Linked(s) && Settled(s) && IsComplete(s) && a in s && p in s[a].ReadyPeers()
    ensures s[a].Allows(s[a].peers[p].status, s[a].IsVacant(s[a].registry, s[a].registryBoot),
                        s[a].IsVacant(s[a].clock, s[a].clockBoot))
  {
    assert LinkedTo(s, a, p) && Told(s[a], s[p], p);
    forall r: Role ensures s[a].IsVacant(s[a].Holder(r), s[a].Boot(r)) ==> s[p].MakeStatus().View(r) != Seen {
      VacantIsGone(s, a, r);
      if IsGone(s, a, r) {
        GoneForAll(s, a, p, r);
        VacantIsGone(s, p, r);
      }
    }
    assert s[a].Holder(Registry) == s[a].registry && s[a].Holder(Clock) == s[a].clock;
  }

  /** Who takes the roles, in a mesh where every node is linked to every other and told it what it sees: with a quorum,
      and a role gone, the successor and nobody else. */
  lemma TakesExactly(s: Mesh, a: Node, candidates: seq<Node>, q: nat)
    requires Linked(s) && Settled(s) && IsComplete(s) && a in s
    ensures s[a].TakesRoles(candidates, q) <==>
      (IsGone(s, a, Registry) || IsGone(s, a, Clock)) && IsNext(s, a, candidates) && (q <= 1 || |s| >= q)
  {
    VacantIsGone(s, a, Registry);
    VacantIsGone(s, a, Clock);
    SuccessorIsNext(s, a, candidates);
    EveryoneIsReady(s, a);
    forall p | p in s[a].ReadyPeers()
      ensures s[a].Allows(s[a].peers[p].status, s[a].IsVacant(s[a].registry, s[a].registryBoot),
                          s[a].IsVacant(s[a].clock, s[a].clockBoot))
    {
      NoneObjects(s, a, p);
    }
  }

  lemma EveryoneIsReady(s: Mesh, a: Node)
    requires Linked(s) && IsComplete(s) && a in s
    ensures |s[a].ReadyPeers()| + 1 == |s|
  {
    forall n ensures n in s[a].ReadyPeers() + {a} <==> n in s.Keys {
      ReadyIsInMesh(s, a, n);
    }
    assert s[a].ReadyPeers() + {a} == s.Keys && a !in s[a].ReadyPeers() by { ReadyIsInMesh(s, a, a); }
    assert |s| == |s.Keys|;
  }

  lemma SuccessorIsNext(s: Mesh, a: Node, candidates: seq<Node>)
    requires Linked(s) && IsComplete(s) && a in s
    ensures s[a].IsSuccessor(candidates) <==> IsNext(s, a, candidates)
  {
    forall n ensures n in s[a].ReadyPeers() <==> n in s && n != a {
      ReadyIsInMesh(s, a, n);
    }
    FirstIsFirst(s, a, candidates);
    VacantIsGone(s, a, Registry);
    VacantIsGone(s, a, Clock);
    ReadyIsInMesh(s, a, s[a].registry);
    ReadyIsInMesh(s, a, s[a].clock);
  }

  lemma {:induction false} HasLowest(nodes: set<Node>) returns (a: Node)
    requires nodes != {}
    ensures a in nodes && forall n :: n in nodes ==> a <= n
    decreases |nodes|
  {
    a :| a in nodes;
    var others := nodes - {a};
    assert nodes == others + {a};
    if others != {} {
      var b := HasLowest(others);
      if b < a { a := b; }
    }
  }

  lemma {:induction false} HasFirst(s: Mesh, candidates: seq<Node>) returns (k: nat)
    requires exists i :: 0 <= i < |candidates| && candidates[i] in s
    ensures IsFirst(s, candidates, k)
  {
    var i :| 0 <= i < |candidates| && candidates[i] in s;
    k := 0;
    if candidates[0] !in s {
      assert candidates[1..][i - 1] in s;
      k := HasFirst(s, candidates[1..]);
      k := k + 1;
    }
  }

  /** A lost role is taken: in such a mesh, when any node finds the role's process gone and a candidate is there (any
      node is one without a list), some node takes the role; then it has it, and it isn't vacant for it. */
  lemma LostRoleIsTaken(s: Mesh, lost: Node, r: Role, candidates: seq<Node>, q: nat) returns (a: Node)
    requires Linked(s) && Settled(s) && IsComplete(s) && lost in s && IsGone(s, lost, r) && q <= |s|
    requires candidates == [] || exists k :: 0 <= k < |candidates| && candidates[k] in s
    ensures a in s && s[a].Takes(r, candidates, q) && s[a].Filled().Has(r)
  {
    if candidates == [] {
      a := HasLowest(s.Keys);
    } else {
      var k := HasFirst(s, candidates);
      a := candidates[k];
    }
    GoneForAll(s, lost, a, r);
    VacantIsGone(s, a, r);
    TakesExactly(s, a, candidates, q);
  }

  /** Taking the roles gives this process the vacant ones, with the next term, and leaves the others as they were. */
  lemma FilledHas(s: State, r: Role)
    ensures s.Filled().term == s.term + 1 && s.Filled().boot == s.boot && s.Filled().local == s.local
    ensures if s.IsVacant(s.Holder(r), s.Boot(r)) then s.Filled().Has(r)
            else s.Filled().Holder(r) == s.Holder(r) && s.Filled().Boot(r) == s.Boot(r)
    ensures s.IsVacant(s.registry, s.registryBoot) ==> s.Filled().settling
    ensures s.boot != 0 && s.IsVacant(s.Holder(r), s.Boot(r)) ==>
      !s.Filled().IsVacant(s.Filled().Holder(r), s.Filled().Boot(r))
  {}

  /** What keeps a node from taking what it lost, whatever the others know: a ready node that said nothing, or speaks of
      other roles, or sees the process of a lost role, unless that's not the process this node lost. */
  predicate Objects(s: State, status: Option<RoleStatus>) {
    || status.None? || status.value.term != s.term || status.value.registry != s.registry
    || status.value.clock != s.clock
    || exists r: Role :: ObjectsTo(s, status.value, r)
  }

  predicate ObjectsTo(s: State, status: RoleStatus, r: Role) {
    && s.IsVacant(s.Holder(r), s.Boot(r)) && status.View(r) == Seen
    && (s.Boot(r) != 0 ==> status.Boot(r) == s.Boot(r))
  }

  /** In any mesh, a node takes roles exactly when one is vacant, it's the successor with a quorum, and no ready node
      objects. */
  lemma TakesUnlessObjected(s: State, candidates: seq<Node>, q: nat)
    ensures s.TakesRoles(candidates, q) <==>
      && (exists r: Role :: s.IsVacant(s.Holder(r), s.Boot(r))) && s.IsSuccessor(candidates)
      && (q <= 1 || |s.ReadyPeers()| >= q - 1)
      && forall n :: n in s.peers && s.peers[n].ready ==> !Objects(s, s.peers[n].status)
  {
    var registryLost, clockLost := s.IsVacant(s.registry, s.registryBoot), s.IsVacant(s.clock, s.clockBoot);
    assert s.Holder(Registry) == s.registry && s.Holder(Clock) == s.clock;
    assert s.Boot(Registry) == s.registryBoot && s.Boot(Clock) == s.clockBoot;
    forall n | n in s.peers && s.peers[n].ready
      ensures s.Allows(s.peers[n].status, registryLost, clockLost) <==> !Objects(s, s.peers[n].status)
    {
      AllowsIsNoObjection(s, s.peers[n].status);
    }
  }

  lemma AllowsIsNoObjection(s: State, status: Option<RoleStatus>)
    ensures s.Allows(status, s.IsVacant(s.registry, s.registryBoot), s.IsVacant(s.clock, s.clockBoot)) <==>
            !Objects(s, status)
  {
    if status.Some? {
      var t := status.value;
      assert ObjectsTo(s, t, Registry) <==>
        s.IsVacant(s.registry, s.registryBoot) && t.registryView == Seen
        && (s.registryBoot == 0 || t.registryBoot == s.registryBoot);
      assert ObjectsTo(s, t, Clock) <==>
        s.IsVacant(s.clock, s.clockBoot) && t.clockView == Seen && (s.clockBoot == 0 || t.clockBoot == s.clockBoot);
    }
  }

  /** What two nodes that see the same process of a role's node know after they told each other which one they knew: the
      only one known; of two, the one that isn't there anymore; if neither is, each keeps its own. */
  lemma BothLearn(a: State, b: State, r: Role)
    requires a.Holder(r) == b.Holder(r) && a.NodeBoot(a.Holder(r)) == b.NodeBoot(b.Holder(r))
    ensures var x, y, here := a.Boot(r), b.Boot(r), a.NodeBoot(a.Holder(r));
      var (x', y') := (a.Learn(r, y), b.Learn(r, x));
      && (x == y || y == 0 ==> x' == x) && (x == 0 ==> x' == y) && (x == y || x == 0 ==> y' == y)
      && (y == 0 ==> y' == x)
      && (x != 0 && y != 0 && x != y ==>
            x' == (if x == here then y else x) && y' == if y == here then x else y)
  {}
}
