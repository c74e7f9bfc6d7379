/** What each node knows of the roles after a step, and whom it tells. */
module RolesTaken {
  import opened Frames
  import opened Roles

  /** The later of two assignments. */
  function Latest(a: Assignment, b: Assignment): Assignment {
    if Later(a, b) then a else b
  }

  /** The roles the nodes know after a step: a node that changes them gives them as it was told to, with the next term;
      one that restarts starts over; one that takes another's hello or announcement knows the latest of the two. */
  function RolesNext(s: Mesh, step: Step): map<Node, Assignment>
    requires Enabled(s, step)
  {
    match step
    case ChangesRoles(n, registry, clock) => s.roles[n := Assignment(s.roles[n].term + 1, registry, clock)]
    case Restarts(n) => s.roles[n := s.config]
    case Takes(n, from) =>
      var m := s.Queue(from, n)[0];
      if (m.Hello? && (n, from) !in s.ready) || (m.Announce? && (n, from) in s.ready)
      then s.roles[n := Latest(m.a, s.roles[n])]
      else s.roles
    case _ => s.roles
  }

  /** In one window of terms, that's what they know. */
  lemma NodesKnowTheLatest(s: Mesh, step: Step, w: set<Assignment>)
    requires Inv(s) && Window(w, s.config) && Within(s, w) && Enabled(s, step)
    ensures Next(s, step).roles == RolesNext(s, step)
  {
    if step.Takes? {
      var n, from := step.n, step.from;
      var m := s.Queue(from, n)[0];
      assert m in s.Queue(from, n) && m.a in w && s.roles[n] in w && NearAll(w, m.a) && NearAll(w, s.roles[n]);
      assert LinkInv(s, from, n);
      BeatsIsLater(m.a, s.roles[n]);
      BeatsIsLater(s.roles[n], m.a);
      if m.Announce? { assert m.a.term > 0; }
    }
  }

  /** What a node's queue to another gets. */
  ghost predicate Gets(s: Mesh, s': Mesh, n: Node, p: Node, m: Message) {
    s'.Queue(n, p) == s.Queue(n, p) + [m]
  }

  ghost predicate OthersGetNothing(s: Mesh, s': Mesh, n: Node) {
    forall k, p :: k != n ==> s'.Queue(k, p) == s.Queue(k, p)
  }

  /** A change of the roles is announced to every ready neighbour, and so is what a node says it knows. */
  lemma ChangesAreAnnounced(s: Mesh, n: Node, registry: Node, clock: Node, p: Node)
    requires Linked(s) && Enabled(s, ChangesRoles(n, registry, clock)) && (n, p) in s.links
    ensures var s' := Next(s, ChangesRoles(n, registry, clock));
      && s'.ready == s.ready && s'.links == s.links && OthersGetNothing(s, s', n)
      && if (n, p) in s.ready then Gets(s, s', n, p, Announce(Assignment(s.roles[n].term + 1, registry, clock)))
         else s'.Queue(n, p) == s.Queue(n, p)
    ensures var s' := Next(s, TellsStatus(n));
      if (n, p) in s.ready then Gets(s, s', n, p, Status(s.roles[n])) else s'.Queue(n, p) == s.Queue(n, p)
  {
    SentToAll(s, n, Announce(Assignment(s.roles[n].term + 1, registry, clock)), n, p);
    SentToAll(s, n, Status(s.roles[n]), n, p);
    forall k, x | k != n ensures Next(s, ChangesRoles(n, registry, clock)).Queue(k, x) == s.Queue(k, x) {
      SentToAll(s, n, Announce(Assignment(s.roles[n].term + 1, registry, clock)), k, x);
    }
  }

  /** Newer roles are passed on to every ready neighbour; older ones are answered with what the node knows. */
  lemma NewsIsPassedOn(s: Mesh, n: Node, from: Node, p: Node, w: set<Assignment>)
    requires Inv(s) && Window(w, s.config) && Within(s, w) && Enabled(s, Takes(n, from))
    requires (n, from) in s.ready && s.Queue(from, n)[0].Announce? && (n, p) in s.links
    ensures var s', a := Next(s, Takes(n, from)), s.Queue(from, n)[0].a;
      if Later(a, s.roles[n]) && (n, p) in s.ready then Gets(s, s', n, p, Announce(a))
      else if Later(s.roles[n], a) && p == from then Gets(s, s', n, p, Announce(s.roles[n]))
      else s'.Queue(n, p) == s.Queue(n, p)
  {
    var a, s1 := s.Queue(from, n)[0].a, s.(queues := s.queues[(from, n) := s.Queue(from, n)[1..]]);
    assert LinkInv(s, from, n) && s.Queue(from, n)[0] in s.Queue(from, n);
    assert a in w && s.roles[n] in w && NearAll(w, a) && NearAll(w, s.roles[n]) && a.term > 0;
    BeatsIsLater(a, s.roles[n]);
    BeatsIsLater(s.roles[n], a);
    SentToAll(s1, n, Announce(a), n, p);
  }

  /** An older status is answered with what the node knows; no other status is. */
  lemma OldStatusIsAnswered(s: Mesh, n: Node, from: Node, w: set<Assignment>)
    requires Inv(s) && Window(w, s.config) && Within(s, w) && Enabled(s, Takes(n, from))
    requires (n, from) in s.ready && s.Queue(from, n)[0].Status?
    ensures var s', a := Next(s, Takes(n, from)), s.Queue(from, n)[0].a;
      if Later(s.roles[n], a) then Gets(s, s', n, from, Announce(s.roles[n])) else s'.Queue(n, from) == s.Queue(n, from)
  {
    var a := s.Queue(from, n)[0].a;
    assert LinkInv(s, from, n) && s.Queue(from, n)[0] in s.Queue(from, n);
    assert a in w && s.roles[n] in w && NearAll(w, a) && NearAll(w, s.roles[n]);
    BeatsIsLater(s.roles[n], a);
  }

  /** A hello makes its sender ready, and is answered with what the node knows then, unless it names nobody for a role,
      is out of the window, or starts a mesh with other roles. */
  lemma HelloIsAnswered(s: Mesh, n: Node, from: Node)
    requires Linked(s) && Enabled(s, Takes(n, from)) && s.Queue(from, n)[0].Hello? && (n, from) !in s.ready
    ensures var s', a, own := Next(s, Takes(n, from)), s.Queue(from, n)[0].a, s.roles[n];
      if a.registry > 0 && a.clock > 0 && !SerialApart(Serial(a.term), Serial(own.term))
         && (a.term > 0 || own.term > 0 || (a.registry == own.registry && a.clock == own.clock))
      then s'.ready == s.ready + {(n, from)} && Gets(s, s', n, from, Status(s'.roles[n]))
      else s'.ready == s.ready && s'.roles == s.roles && s'.Queue(n, from) == s.Queue(n, from)
  {
    assert n != from;
  }

  /** What is out of the window, or names nobody for a role, is ignored; so is another hello, and what comes before
      it. */
  lemma MalformedIsIgnored(s: Mesh, n: Node, from: Node)
    requires Linked(s) && Enabled(s, Takes(n, from))
    requires var m := s.Queue(from, n)[0];
      || m.a.registry == 0 || m.a.clock == 0 || SerialApart(Serial(m.a.term), Serial(s.roles[n].term))
      || (m.Announce? && m.a.term == 0) || (!m.Hello? && (n, from) !in s.ready) || (m.Hello? && (n, from) in s.ready)
    ensures Next(s, Takes(n, from)) == s.(queues := s.queues[(from, n) := s.Queue(from, n)[1..]])
  {}
}
