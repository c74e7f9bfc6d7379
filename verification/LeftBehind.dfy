/** What a hello does that the flooding of the roles doesn't make up for: a node that takes newer roles from a hello
    tells none of its other neighbours. Which ones are left behind, for how long, and how they catch up. */
module LeftBehind {
  import opened Frames
  import opened Roles

  /** `p` has older roles than `n`, and nothing under way between them will tell: no announcement of `n`'s roles to `p`,
      and no status of `p` to `n`. */
  ghost predicate IsBehind(s: Mesh, n: Node, p: Node) {
    && (n, p) in s.ready && (p, n) in s.ready && n in s.roles && p in s.roles && Later(s.roles[n], s.roles[p])
    && (forall m :: m in s.Queue(n, p) && m.Announce? ==> Later(s.roles[n], m.a))
    && (forall m :: m in s.Queue(p, n) ==> !m.Status?)
  }

  /** It's the opposite of being covered. */
  lemma BehindIsUncovered(s: Mesh, n: Node, p: Node)
    requires Linked(s) && (n, p) in s.ready && QueueInv(s, p, n)
    ensures IsBehind(s, n, p) <==> !Covered(s, n, p)
  {
    if !Covered(s, n, p) {
      forall m | m in s.Queue(p, n) ensures !m.Status? {
        LaterOrBefore(s.roles[n], s.roles[p], m.a);
      }
    }
  }

  lemma LaterOrBefore(a: Assignment, b: Assignment, c: Assignment)
    requires AtLeast(b, c)
    ensures AtLeast(b, a) || Later(a, c)
  {}

  /** Exactly which neighbours a hello leaves behind, from what is under way before it: the ones that are ready, don't
      know its roles, and haven't an older status on its way that the node would answer. */
  lemma HelloLeavesBehind(s: Mesh, n: Node, from: Node, p: Node, w: set<Assignment>)
    requires Inv(s) && Window(w, s.config) && Within(s, w) && Enabled(s, Takes(n, from))
    requires LearnsFromHello(s, Takes(n, from)) && (n, p) in s.ready && p != from
    ensures (p, n) in s.links && p in s.roles
    ensures var a := s.Queue(from, n)[0].a;
      IsBehind(Next(s, Takes(n, from)), n, p) <==>
      (p, n) in s.ready && !AtLeast(s.roles[p], a) && !HasOldStatus(s, p, n, a)
  {
    var a, s' := s.Queue(from, n)[0].a, Next(s, Takes(n, from));
    assert LinkInv(s, n, p) && LinkInv(s, p, n);
    HelloTeaches(s, n, from, w);
    TaughtBehind(s, s', n, p, a);
  }

  lemma HelloTeaches(s: Mesh, n: Node, from: Node, w: set<Assignment>)
    requires Inv(s) && Window(w, s.config) && Within(s, w) && Enabled(s, Takes(n, from))
    requires LearnsFromHello(s, Takes(n, from))
    ensures var a, s' := s.Queue(from, n)[0].a, Next(s, Takes(n, from));
      && Later(a, s.roles[n]) && s'.roles == s.roles[n := a] && s'.ready == s.ready + {(n, from)}
      && forall x: Node, y: Node :: (x, y) != (n, from) && (x, y) != (from, n) ==> s'.Queue(x, y) == s.Queue(x, y)
  {
    var a, s' := s.Queue(from, n)[0].a, Next(s, Takes(n, from));
    assert LinkInv(s, from, n);
    HelloIsTaken(s, n, from, w);
    assert s.Queue(from, n)[0] in s.Queue(from, n) && NearAll(w, a);
    BeatsIsLater(a, s.roles[n]);
  }

  lemma TaughtBehind(s: Mesh, s': Mesh, n: Node, p: Node, a: Assignment)
    requires n != p && n in s.roles && p in s.roles && Later(a, s.roles[n]) && s'.roles == s.roles[n := a]
    requires (n, p) in s.ready && (n, p) in s'.ready && ((p, n) in s'.ready <==> (p, n) in s.ready)
    requires QueueInv(s, n, p) && QueueInv(s, p, n) && s'.Queue(n, p) == s.Queue(n, p)
      && s'.Queue(p, n) == s.Queue(p, n)
    ensures IsBehind(s', n, p) <==> (p, n) in s.ready && !AtLeast(s.roles[p], a) && !HasOldStatus(s, p, n, a)
  {
    forall m | m in s.Queue(n, p) ensures Later(a, m.a) {
      assert AtLeast(s.roles[n], m.a);
    }
    forall m | m in s.Queue(p, n) ensures Later(a, m.a) || AtLeast(s.roles[p], a) {
      LaterOrBefore(a, s.roles[p], m.a);
    }
  }

  // -------------------------------------------------------------------------------------------------- Whole runs

  /** The steps after which a neighbour may catch up: the link breaks; the neighbour says what it knows; either node
      takes other roles and tells; or the node answers an announcement of the neighbour's. */
  predicate MayCatchUp(s: Mesh, step: Step, n: Node, p: Node)
    requires Enabled(s, step)
  {
    match step
    case Disconnects(x, y) => (x, y) == (n, p) || (x, y) == (p, n)
    case TellsStatus(x) => x == p
    case ChangesRoles(x, _, _) => x == n || x == p
    case Takes(x, from) =>
      var m := s.Queue(from, x)[0];
      || (x == n && m.Announce? && (from == p || Beats(m.a, s.roles[n])))
      || (x == p && !m.Status? && Beats(m.a, s.roles[p]))
    case Connects(_, _) => false
    case Restarts(_) => false
  }

  lemma {:induction false} LinkedKeeps(s: Mesh, step: Step)
    requires Linked(s) && Enabled(s, step)
    ensures Linked(Next(s, step))
  {
    if step.Takes? {
      assert (step.from, step.n) in s.links && (step.n, step.from) in s.links;
    }
  }

  /** Every other step leaves it behind. */
  lemma StaysBehind(s: Mesh, step: Step, n: Node, p: Node, w: set<Assignment>)
    requires Linked(s) && Window(w, s.config) && Within(s, w) && Enabled(s, step)
    requires IsBehind(s, n, p) && !MayCatchUp(s, step, n, p)
    ensures IsBehind(Next(s, step), n, p)
  {
    match step
    case Takes(x, from) => StaysBehindTaking(s, x, from, n, p, w);
    case ChangesRoles(x, registry, clock) =>
      ToldOthers(s, x, Announce(Assignment(s.roles[x].term + 1, registry, clock)), n, p);
    case TellsStatus(x) => ToldOthers(s, x, Status(s.roles[x]), n, p);
    case Connects(_, _) =>
    case Disconnects(_, _) =>
    case Restarts(_) =>
  }

  /** What a node tells everyone: it isn't `p`, and what `n` tells isn't an announcement. */
  lemma ToldOthers(s: Mesh, x: Node, m: Message, n: Node, p: Node)
    requires Linked(s) && IsBehind(s, n, p) && x != p && (x == n ==> !m.Announce?)
    ensures IsBehind(SendAll(s, x, m), n, p)
    ensures SendAll(s, x, m).Queue(p, n) == s.Queue(p, n)
  {
    SentToAll(s, x, m, n, p);
    SentToAll(s, x, m, p, n);
  }

  lemma StaysBehindTaking(s: Mesh, x: Node, from: Node, n: Node, p: Node, w: set<Assignment>)
    requires Linked(s) && Window(w, s.config) && Within(s, w) && Enabled(s, Takes(x, from))
    requires IsBehind(s, n, p) && !MayCatchUp(s, Takes(x, from), n, p)
    ensures IsBehind(Next(s, Takes(x, from)), n, p)
  {
    var m := s.Queue(from, x)[0];
    var s1 := Drop(s, from, x);
    assert m in s.Queue(from, x) && NearAll(w, m.a);
    BeatsIsLater(m.a, s.roles[x]);
    DroppedBehind(s, from, x, n, p);
    if m.Hello? {
      HelloElsewhereBehind(s1, x, from, m.a, n, p);
    } else if (x, from) in s.ready {
      if m.Announce? && Beats(m.a, s.roles[x]) && x != n && x != p { ToldOthers(s1, x, Announce(m.a), n, p); }
      AnswersElsewhere(s1, x, from, n, p);
    }
  }

  lemma DroppedBehind(s: Mesh, from: Node, x: Node, n: Node, p: Node)
    requires Linked(s) && IsBehind(s, n, p) && (from, x) in s.links && s.Queue(from, x) != []
    ensures IsBehind(Drop(s, from, x), n, p) && Linked(Drop(s, from, x))
  {
    var s1 := Drop(s, from, x);
    assert forall k: Node, l: Node :: (k, l) != (from, x) ==> s1.Queue(k, l) == s.Queue(k, l);
    assert forall m :: m in s1.Queue(from, x) ==> m in s.Queue(from, x);
  }

  lemma HelloElsewhereBehind(s: Mesh, x: Node, from: Node, a: Assignment, n: Node, p: Node)
    requires Linked(s) && IsBehind(s, n, p) && x in s.roles && (Beats(a, s.roles[x]) ==> Later(a, s.roles[x]))
    requires x == p ==> !Beats(a, s.roles[p])
    ensures IsBehind(HandleHello(s, x, from, a), n, p)
  {
    var s' := HandleHello(s, x, from, a);
    if s' != s {
      assert (x, from) != (p, n);
      forall m | m in s'.Queue(n, p) && m.Announce? ensures Later(s'.roles[n], m.a) {
        assert m in s.Queue(n, p);
      }
    }
  }

  /** An answer is to one node, and isn't a status. */
  lemma AnswersElsewhere(s: Mesh, x: Node, from: Node, n: Node, p: Node)
    requires Linked(s) && IsBehind(s, n, p) && x in s.roles && (x, from) != (n, p)
    ensures IsBehind(Send(s, x, from, Announce(s.roles[x])), n, p)
  {
    var s' := Send(s, x, from, Announce(s.roles[x]));
    assert forall k: Node, l: Node :: (k, l) != (x, from) ==> s'.Queue(k, l) == s.Queue(k, l);
    assert s'.Queue(x, from) == s.Queue(x, from) + [Announce(s.roles[x])];
  }

  /** Any steps, hellos that teach too, but the ones after which `p` may catch up with `n`. */
  ghost predicate RunBehind(s: Mesh, steps: seq<Step>, s': Mesh, n: Node, p: Node, w: set<Assignment>)
    decreases |steps|
  {
    Window(w, s.config) && Within(s, w) &&
    if steps == [] then s' == s
    else Enabled(s, steps[0]) && !MayCatchUp(s, steps[0], n, p) && RunBehind(Next(s, steps[0]), steps[1..], s', n, p, w)
  }

  /** A neighbour left behind stays behind, whatever else the mesh does, until one of those steps. */
  lemma {:induction false} StaysBehindForARun(s: Mesh, steps: seq<Step>, s': Mesh, n: Node, p: Node, w: set<Assignment>)
    requires Linked(s) && IsBehind(s, n, p) && RunBehind(s, steps, s', n, p, w)
    ensures IsBehind(s', n, p)
    decreases |steps|
  {
    if steps != [] {
      StaysBehind(s, steps[0], n, p, w);
      LinkedKeeps(s, steps[0]);
      StaysBehindForARun(Next(s, steps[0]), steps[1..], s', n, p, w);
    }
  }

  /** Once it says what it knows, the node will tell it. */
  lemma StatusCatchesUp(s: Mesh, n: Node, p: Node)
    requires Linked(s) && IsBehind(s, n, p)
    ensures Enabled(s, TellsStatus(p)) && Covered(Next(s, TellsStatus(p)), n, p)
  {
    var s' := Next(s, TellsStatus(p));
    SentToAll(s, p, Status(s.roles[p]), p, n);
    assert Status(s.roles[p]) in s'.Queue(p, n);
    assert HasOldStatus(s', p, n, s'.roles[n]);
  }

  // ------------------------------------------------------------------------------------------------------ A mesh

  const CONFIG: Assignment := Assignment(0, 1, 1)
  const NEWER: Assignment := Assignment(1, 3, 3)

  /** Three nodes, nothing connected. */
  function Apart(): Mesh {
    Mesh(CONFIG, map[1 := CONFIG, 2 := CONFIG, 3 := CONFIG], {}, {}, map[])
  }

  /** Nodes 1 and 2 are linked and know the configured roles. */
  function Pair(): Mesh {
    Mesh(CONFIG, map[1 := CONFIG, 2 := CONFIG, 3 := CONFIG], {(1, 2), (2, 1)}, {(1, 2), (2, 1)},
         map[(1, 2) := [], (2, 1) := []])
  }

  /** Node 3, which has the roles of the next term, just linked to node 1. */
  function BeforeHello(): Mesh {
    Mesh(CONFIG, map[1 := CONFIG, 2 := CONFIG, 3 := NEWER], {(1, 2), (2, 1), (1, 3), (3, 1)}, {(1, 2), (2, 1)},
         map[(1, 2) := [], (2, 1) := [], (1, 3) := [Hello(CONFIG)], (3, 1) := [Hello(NEWER)]])
  }

  /** Node 1 took the hello: it has the newer roles, and node 2 doesn't. */
  function AfterHello(): Mesh {
    Mesh(CONFIG, map[1 := NEWER, 2 := CONFIG, 3 := NEWER], {(1, 2), (2, 1), (1, 3), (3, 1)}, {(1, 2), (2, 1), (1, 3)},
         map[(1, 2) := [], (2, 1) := [], (1, 3) := [Hello(CONFIG), Status(NEWER)], (3, 1) := []])
  }

  lemma Serials()
    ensures Serial(0) == 0 && Serial(1) == 1
    ensures Beats(NEWER, CONFIG) && !Beats(CONFIG, NEWER) && !Beats(CONFIG, CONFIG) && !Beats(NEWER, NEWER)
    ensures !Refuses(CONFIG, CONFIG) && !Refuses(CONFIG, NEWER) && !Refuses(NEWER, CONFIG)
    ensures Window({CONFIG, NEWER}, CONFIG)
  {
    BeatsIsLater(NEWER, CONFIG);
    BeatsIsLater(CONFIG, NEWER);
    BeatsIsLater(CONFIG, CONFIG);
    BeatsIsLater(NEWER, NEWER);
  }

  /** One step of a run in which no node learns from a hello. */
  lemma RunCons(s: Mesh, step: Step, rest: seq<Step>, s': Mesh, w: set<Assignment>)
    requires Window(w, s.config) && Within(s, w) && Enabled(s, step) && !LearnsFromHello(s, step)
    requires Run(Next(s, step), rest, s', w)
    ensures Run(s, [step] + rest, s', w)
  {
    assert ([step] + rest)[1..] == rest;
  }

  lemma {:induction false} RunAppends(s: Mesh, xs: seq<Step>, m: Mesh, ys: seq<Step>, s': Mesh, w: set<Assignment>)
    requires Run(s, xs, m, w) && Run(m, ys, s', w)
    ensures Run(s, xs + ys, s', w)
    decreases |xs|
  {
    if xs == [] {
      assert xs + ys == ys;
    } else {
      RunAppends(Next(s, xs[0]), xs[1..], m, ys, s', w);
      assert xs + ys == [xs[0]] + (xs[1..] + ys);
      RunCons(s, xs[0], xs[1..] + ys, s', w);
    }
  }

  function Greeted(q12: seq<Message>, q21: seq<Message>, ready: set<(Node, Node)>): Mesh {
    Pair().(ready := ready, queues := map[(1, 2) := q12, (2, 1) := q21])
  }

  lemma PairGreets()
    ensures Run(Apart(), [Connects(1, 2), Takes(2, 1), Takes(1, 2)],
                Greeted([Status(CONFIG)], [Status(CONFIG)], {(1, 2), (2, 1)}), {CONFIG, NEWER})
  {
    Serials();
    var w, hello, status := {CONFIG, NEWER}, Hello(CONFIG), Status(CONFIG);
    var s1 := Greeted([hello], [hello], {});
    var s2 := Greeted([], [hello, status], {(2, 1)});
    var s3 := Greeted([status], [status], {(1, 2), (2, 1)});
    assert Next(Apart(), Connects(1, 2)) == s1;
    assert Next(s1, Takes(2, 1)) == s2 by { assert [hello][1..] == [] && [hello] + [status] == [hello, status]; }
    assert Next(s2, Takes(1, 2)) == s3 by { assert [hello, status][1..] == [status] && [] + [status] == [status]; }
    RunCons(s2, Takes(1, 2), [], s3, w);
    RunCons(s1, Takes(2, 1), [Takes(1, 2)], s3, w);
    RunCons(Apart(), Connects(1, 2), [Takes(2, 1)] + [Takes(1, 2)], s3, w);
    assert [Connects(1, 2)] + ([Takes(2, 1)] + [Takes(1, 2)]) == [Connects(1, 2), Takes(2, 1), Takes(1, 2)];
  }

  lemma PairSettles()
    ensures Run(Greeted([Status(CONFIG)], [Status(CONFIG)], {(1, 2), (2, 1)}), [Takes(1, 2), Takes(2, 1)], Pair(),
                {CONFIG, NEWER})
  {
    Serials();
    var w, status := {CONFIG, NEWER}, Status(CONFIG);
    var s0, s1 := Greeted([status], [status], {(1, 2), (2, 1)}), Greeted([status], [], {(1, 2), (2, 1)});
    assert [status][1..] == [];
    assert Next(s0, Takes(1, 2)) == s1;
    assert Next(s1, Takes(2, 1)) == Pair();
    RunCons(s1, Takes(2, 1), [], Pair(), w);
    RunCons(s0, Takes(1, 2), [Takes(2, 1)], Pair(), w);
    assert [Takes(1, 2)] + [Takes(2, 1)] == [Takes(1, 2), Takes(2, 1)];
  }

  lemma ThirdNodeJoins()
    ensures Run(Pair(), [ChangesRoles(3, 3, 3), Connects(1, 3)], BeforeHello(), {CONFIG, NEWER})
  {
    Serials();
    var w, s1 := {CONFIG, NEWER}, Pair().(roles := map[1 := CONFIG, 2 := CONFIG, 3 := NEWER]);
    assert Next(Pair(), ChangesRoles(3, 3, 3)) == s1;
    assert Next(s1, Connects(1, 3)) == BeforeHello();
    RunCons(s1, Connects(1, 3), [], BeforeHello(), w);
    RunCons(Pair(), ChangesRoles(3, 3, 3), [Connects(1, 3)], BeforeHello(), w);
    assert [ChangesRoles(3, 3, 3)] + [Connects(1, 3)] == [ChangesRoles(3, 3, 3), Connects(1, 3)];
  }

  lemma NodeOneLearns()
    ensures var s := BeforeHello(); var step := Takes(1, 3);
      Enabled(s, step) && LearnsFromHello(s, step) && Next(s, step) == AfterHello()
  {
    Serials();
    var s := BeforeHello();
    assert (1, 2) in s.ready && (1, 2).0 == 1 && s.Queue(3, 1)[0] == Hello(NEWER);
    assert [Hello(NEWER)][1..] == [] && [Hello(CONFIG)] + [Status(NEWER)] == [Hello(CONFIG), Status(NEWER)];
  }

  /** Any steps. */
  ghost predicate RunAll(s: Mesh, steps: seq<Step>, s': Mesh)
    decreases |steps|
  {
    if steps == [] then s' == s else Enabled(s, steps[0]) && RunAll(Next(s, steps[0]), steps[1..], s')
  }

  /** After the hello, with other queues between nodes 1 and 2. */
  function Catching(q12: seq<Message>, q21: seq<Message>, second: Assignment): Mesh {
    var s := AfterHello();
    s.(roles := map[1 := NEWER, 2 := second, 3 := NEWER],
       queues := map[(1, 2) := q12, (2, 1) := q21, (1, 3) := [Hello(CONFIG), Status(NEWER)], (3, 1) := []])
  }

  /** Node 2 says what it knows, and node 1 answers. */
  lemma NodeOneAnswers()
    ensures var s, s' := AfterHello(), Catching([Announce(NEWER)], [], CONFIG);
      Enabled(s, TellsStatus(2)) && Enabled(Next(s, TellsStatus(2)), Takes(1, 2))
        && Next(Next(s, TellsStatus(2)), Takes(1, 2)) == s'
  {
    Serials();
    var s1 := Catching([], [Status(CONFIG)], CONFIG);
    NodeTwoTells();
    NodeOneTakes(s1);
  }

  lemma NodeOneTakes(s: Mesh)
    requires s == Catching([], [Status(CONFIG)], CONFIG)
    ensures Enabled(s, Takes(1, 2)) && Next(s, Takes(1, 2)) == Catching([Announce(NEWER)], [], CONFIG)
  {
    Serials();
    assert [Status(CONFIG)][1..] == [] && [] + [Announce(NEWER)] == [Announce(NEWER)];
    assert Next(s, Takes(1, 2)) == Send(Drop(s, 2, 1), 1, 2, Announce(NEWER));
  }

  lemma NodeTwoTells()
    ensures Next(AfterHello(), TellsStatus(2)) == Catching([], [Status(CONFIG)], CONFIG)
  {
    OnlyNeighbour(AfterHello(), 2, 1, Status(CONFIG));
    assert [] + [Status(CONFIG)] == [Status(CONFIG)];
  }

  /** What a node with one neighbour tells everyone. */
  lemma OnlyNeighbour(s: Mesh, n: Node, p: Node, m: Message)
    requires (n, p) in s.ready && s.ready <= s.links && s.links <= s.queues.Keys
    requires forall l :: l in s.ready && l.0 == n ==> l.1 == p
    ensures SendAll(s, n, m) == Send(s, n, p, m)
  {
    var q, q' := SendAll(s, n, m).queues, Send(s, n, p, m).queues;
    assert q.Keys == s.queues.Keys == q'.Keys;
    assert q == q';
  }

  lemma NodeTwoCatchesUp()
    ensures var s := Catching([Announce(NEWER)], [], CONFIG);
      Enabled(s, Takes(2, 1)) && Next(s, Takes(2, 1)).roles == map[1 := NEWER, 2 := NEWER, 3 := NEWER]
  {
    Serials();
    assert !SerialApart(1, 0);
  }

  lemma BeforeHelloIsReached() returns (steps: seq<Step>)
    ensures Initial(Apart()) && Run(Apart(), steps, BeforeHello(), {CONFIG, NEWER})
  {
    PairGreets();
    PairSettles();
    ThirdNodeJoins();
    var greeted := Greeted([Status(CONFIG)], [Status(CONFIG)], {(1, 2), (2, 1)});
    var xs, ys := [Connects(1, 2), Takes(2, 1), Takes(1, 2)], [Takes(1, 2), Takes(2, 1)];
    var zs := [ChangesRoles(3, 3, 3), Connects(1, 3)];
    RunAppends(greeted, ys, Pair(), zs, BeforeHello(), {CONFIG, NEWER});
    RunAppends(Apart(), xs, greeted, ys + zs, BeforeHello(), {CONFIG, NEWER});
    steps := xs + (ys + zs);
  }

  /** A run leads to a hello that leaves a neighbour behind: node 1 takes the newer roles from node 3, and nothing under
      way will tell node 2, which would ignore the newer roles in a status of node 1. */
  lemma HelloCanLeaveBehind() returns (steps: seq<Step>)
    ensures Initial(Apart()) && Run(Apart(), steps, BeforeHello(), {CONFIG, NEWER})
    ensures Enabled(BeforeHello(), Takes(1, 3)) && LearnsFromHello(BeforeHello(), Takes(1, 3))
    ensures Next(BeforeHello(), Takes(1, 3)) == AfterHello() && IsBehind(AfterHello(), 1, 2)
    ensures HandleStatus(AfterHello(), 2, 1, NEWER) == AfterHello()
  {
    steps := BeforeHelloIsReached();
    NodeOneLearns();
    NodeTwoIsBehind();
  }

  lemma NodeTwoIsBehind()
    ensures IsBehind(AfterHello(), 1, 2) && HandleStatus(AfterHello(), 2, 1, NEWER) == AfterHello()
  {
    Serials();
  }

  /** It catches up once it says what it knows: then both have the newer roles. */
  lemma StatusBringsAgreement() returns (s: Mesh)
    ensures RunAll(AfterHello(), [TellsStatus(2), Takes(1, 2), Takes(2, 1)], s)
    ensures s.roles == map[1 := NEWER, 2 := NEWER, 3 := NEWER]
  {
    NodeOneAnswers();
    NodeTwoCatchesUp();
    s := Next(Catching([Announce(NEWER)], [], CONFIG), Takes(2, 1));
    var steps := [TellsStatus(2), Takes(1, 2), Takes(2, 1)];
    assert steps[1..] == [Takes(1, 2), Takes(2, 1)] && steps[1..][1..] == [Takes(2, 1)] && steps[1..][1..][1..] == [];
    assert RunAll(Catching([Announce(NEWER)], [], CONFIG), [Takes(2, 1)], s);
  }
}
