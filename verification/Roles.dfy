/** The roles of a mesh: who has the registry and the clock. An assignment of the roles replaces the ones it beats; it
    travels from node to node over reliable links in order, each of which starts with both ends' hello. */
module Roles {
  import opened Frames

  type Node = nat

  /** `term` counts without wrapping around; on the wire it is `Serial(term)`. */
  datatype Assignment = Assignment(term: nat, registry: Node, clock: Node)

  // ------------------------------------------------------------------------------------------------------- Order

  /** roles_beat. */
  predicate Beats(a: Assignment, b: Assignment) {
    if Serial(a.term) != Serial(b.term) then SerialNewer(Serial(a.term), Serial(b.term))
    else if a.registry != b.registry then a.registry < b.registry
    else a.clock < b.clock
  }

  predicate Later(a: Assignment, b: Assignment) {
    || a.term > b.term
    || (a.term == b.term && (a.registry < b.registry || (a.registry == b.registry && a.clock < b.clock)))
  }

  predicate AtLeast(a: Assignment, b: Assignment) {
    a == b || Later(a, b)
  }

  /** Whether two terms are in one serial window: less than the largest jump apart, or one is the term a mesh starts
      with. */
  predicate Near(a: Assignment, b: Assignment) {
    a.term == 0 || b.term == 0 || -MAX_SERIAL_JUMP < a.term - b.term < MAX_SERIAL_JUMP
  }

  lemma BeatsIsLater(a: Assignment, b: Assignment)
    requires Near(a, b)
    ensures Beats(a, b) <==> Later(a, b)
    ensures !SerialApart(Serial(a.term), Serial(b.term))
  {
    SerialNewerIsOrder(a.term, b.term);
  }

  /** In one window the assignments are strictly and totally ordered. */
  lemma BeatsIsStrictOrder(a: Assignment, b: Assignment, c: Assignment)
    requires Near(a, b) && Near(b, c) && Near(a, c)
    ensures !Beats(a, a)
    ensures Beats(a, b) && Beats(b, c) ==> Beats(a, c)
    ensures a != b ==> Beats(a, b) != Beats(b, a)
  {
    BeatsIsLater(a, b);
    BeatsIsLater(b, a);
    BeatsIsLater(b, c);
    BeatsIsLater(a, c);
  }

  /** Over more than a window they aren't: what beats the assignment that beats another may not beat that one. */
  lemma BeatsNeedsWindow()
    ensures exists a, b, c :: Beats(b, a) && Beats(c, b) && !Beats(c, a)
  {
    var t: nat := 1;
    WideTerms(t, t + MAX_SERIAL_JUMP - 1, t + 2 * (MAX_SERIAL_JUMP - 1));
    assert Beats(Assignment(t + MAX_SERIAL_JUMP - 1, 1, 1), Assignment(t, 1, 1));
  }

  lemma WideTerms(t: nat, u: nat, v: nat)
    requires t == 1 && u == t + MAX_SERIAL_JUMP - 1 && v == u + MAX_SERIAL_JUMP - 1
    ensures Beats(Assignment(u, 1, 1), Assignment(t, 1, 1)) && Beats(Assignment(v, 1, 1), Assignment(u, 1, 1))
    ensures !Beats(Assignment(v, 1, 1), Assignment(t, 1, 1))
  {
    SmallSerial(t);
    SmallSerial(u);
    SmallSerial(v);
    SmallBeats(u, t, Serial(u), Serial(t));
    SmallBeats(v, u, Serial(v), Serial(u));
    SmallBeats(v, t, Serial(v), Serial(t));
  }

  lemma SmallBeats(a: nat, b: nat, x: nat, y: nat)
    requires 0 < b < a < U32 && x == a && y == b
    ensures SerialNewer(x, y) <==> a - b <= MAX_SERIAL_JUMP
  {
    ModUnique(a - b, 0, a - b, U32);
  }

  lemma {:induction false} SmallSerial(k: nat)
    requires k < U32
    ensures Serial(k) == k
  {
    if k > 0 {
      SmallSerial(k - 1);
      SmallNext(Serial(k - 1));
      assert Serial(k) == NextSerial(Serial(k - 1));
    }
  }

  lemma SmallNext(v: nat)
    requires v + 1 < U32
    ensures NextSerial(v) == v + 1
  {
    ModUnique(v + 1, 0, v + 1, U32);
  }

  // --------------------------------------------------------------------------------------------------------- Mesh

  datatype Message = Hello(a: Assignment) | Announce(a: Assignment) | Status(a: Assignment)

  /** `links`: the pairs that are connected; `ready`: (n, p) when `n` took `p`'s hello; `queues`: from the first node of
      the pair to the second. */
  datatype Mesh = Mesh(config: Assignment, roles: map<Node, Assignment>, links: set<(Node, Node)>,
                       ready: set<(Node, Node)>, queues: map<(Node, Node), seq<Message>>)
  {
    function Queue(n: Node, p: Node): seq<Message> {
      if (n, p) in queues then queues[(n, p)] else []
    }
  }

  datatype Step =
    | Connects(n: Node, p: Node)
    | Disconnects(n: Node, p: Node)
    | Restarts(n: Node)
    | ChangesRoles(n: Node, registry: Node, clock: Node)
    | TellsStatus(n: Node)
    | Takes(n: Node, from: Node)

  function Send(s: Mesh, n: Node, p: Node, m: Message): Mesh {
    s.(queues := s.queues[(n, p) := s.Queue(n, p) + [m]])
  }

  /** To every node that is ready. */
  function SendAll(s: Mesh, n: Node, m: Message): Mesh {
    s.(queues := map l | l in s.links + s.queues.Keys ::
                   if l.0 == n && l in s.ready then s.Queue(l.0, l.1) + [m] else s.Queue(l.0, l.1))
  }

  /** Passed on first, then adopted: handle_roles, change_roles and fill_vacant_roles. */
  function Adopt(s: Mesh, n: Node, a: Assignment): Mesh
    requires n in s.roles
  {
    SendAll(s, n, Announce(a)).(roles := s.roles[n := a])
  }

  /** handle_roles. */
  function HandleRoles(s: Mesh, n: Node, from: Node, a: Assignment): Mesh
    requires n in s.roles
  {
    if a.term == 0 || a.registry == 0 || a.clock == 0 || SerialApart(Serial(a.term), Serial(s.roles[n].term)) then s
    else if Beats(a, s.roles[n]) then Adopt(s, n, a)
    else if Beats(s.roles[n], a) then Send(s, n, from, Announce(s.roles[n]))
    else s
  }

  /** handle_role_status: only what concerns the assignments. */
  function HandleStatus(s: Mesh, n: Node, from: Node, a: Assignment): Mesh
    requires n in s.roles
  {
    if a.registry == 0 || a.clock == 0 || SerialApart(Serial(a.term), Serial(s.roles[n].term)) then s
    else if Beats(s.roles[n], a) then Send(s, n, from, Announce(s.roles[n]))
    else s
  }

  /** Whether a hello is refused. */
  predicate Refuses(own: Assignment, a: Assignment) {
    a.registry == 0 || a.clock == 0 || SerialApart(Serial(a.term), Serial(own.term)) ||
    (a.term == 0 && own.term == 0 && (a.registry != own.registry || a.clock != own.clock))
  }

  /** handle_hello and on_peer_ready: newer roles are adopted, and nobody else is told. */
  function HandleHello(s: Mesh, n: Node, from: Node, a: Assignment): Mesh
    requires n in s.roles
  {
    if (n, from) in s.ready || Refuses(s.roles[n], a) then s
    else
      var roles := if Beats(a, s.roles[n]) then a else s.roles[n];
      Send(s.(roles := s.roles[n := roles], ready := s.ready + {(n, from)}), n, from, Status(roles))
  }

  predicate Enabled(s: Mesh, step: Step) {
    match step
    case Connects(n, p) => n in s.roles && p in s.roles && n != p && (n, p) !in s.links
    case Disconnects(n, p) => (n, p) in s.links
    case Restarts(n) => n in s.roles && forall l :: l in s.links ==> l.0 != n && l.1 != n
    case ChangesRoles(n, registry, clock) => n in s.roles && registry > 0 && clock > 0
    case TellsStatus(n) => n in s.roles
    case Takes(n, from) => n in s.roles && (from, n) in s.links && s.Queue(from, n) != []
  }

  function Next(s: Mesh, step: Step): Mesh
    requires Enabled(s, step)
  {
    match step
    case Connects(n, p) =>
      s.(links := s.links + {(n, p), (p, n)},
         queues := s.queues[(n, p) := [Hello(s.roles[n])]][(p, n) := [Hello(s.roles[p])]])
    case Disconnects(n, p) =>
      s.(links := s.links - {(n, p), (p, n)}, ready := s.ready - {(n, p), (p, n)},
         queues := s.queues - {(n, p), (p, n)})
    case Restarts(n) => s.(roles := s.roles[n := s.config])
    case ChangesRoles(n, registry, clock) => Adopt(s, n, Assignment(s.roles[n].term + 1, registry, clock))
    case TellsStatus(n) => SendAll(s, n, Status(s.roles[n]))
    case Takes(n, from) =>
      var m, s' := s.Queue(from, n)[0], s.(queues := s.queues[(from, n) := s.Queue(from, n)[1..]]);
      if m.Hello? then HandleHello(s', n, from, m.a)
      else if (n, from) !in s.ready then s'
      else if m.Announce? then HandleRoles(s', n, from, m.a)
      else HandleStatus(s', n, from, m.a)
  }

  // --------------------------------------------------------------------------------------------------- Invariant

  /** Assignments within one window, where the term a mesh starts with has the configured roles only. */
  ghost predicate Window(w: set<Assignment>, config: Assignment) {
    && config in w && config.term == 0
    && forall a :: a in w ==> a.registry > 0 && a.clock > 0 && (a.term == 0 ==> a == config) && NearAll(w, a)
  }

  ghost predicate NearAll(w: set<Assignment>, a: Assignment) {
    forall b :: b in w ==> Near(a, b)
  }

  ghost predicate Within(s: Mesh, w: set<Assignment>) {
    && (forall n :: n in s.roles ==> s.roles[n] in w)
    && (forall n, p, m :: m in s.Queue(n, p) ==> m.a in w)
  }

  ghost predicate Linked(s: Mesh) {
    && (forall l :: l in s.links ==> (l.1, l.0) in s.links && l.0 != l.1 && l.0 in s.roles && l.1 in s.roles)
    && s.ready <= s.links
    && (forall l :: l in s.queues && l !in s.links ==> s.queues[l] == [])
  }

  /** The queue from `n` to `p`: its first message is `n`'s hello until `p` takes it, and nothing in it is newer than
      what `n` knows. */
  ghost predicate QueueInv(s: Mesh, n: Node, p: Node)
    requires n in s.roles
  {
    var q := s.Queue(n, p);
    && (forall m :: m in q ==> AtLeast(s.roles[n], m.a) && (m.Announce? ==> m.a.term > 0))
    && if (p, n) in s.ready then forall m :: m in q ==> !m.Hello?
       else q != [] && q[0].Hello? && forall m :: m in q[1..] ==> !m.Hello?
  }

  ghost predicate HasStatus(s: Mesh, p: Node, n: Node) {
    exists m :: m in s.Queue(p, n) && m.Status?
  }

  ghost predicate HasAnnounce(s: Mesh, n: Node, p: Node, a: Assignment) {
    exists m :: m in s.Queue(n, p) && m.Announce? && AtLeast(m.a, a)
  }

  ghost predicate HasOldStatus(s: Mesh, p: Node, n: Node, a: Assignment) {
    exists m :: m in s.Queue(p, n) && m.Status? && Later(a, m.a)
  }

  /** `p` knows what `n` knows, or it's on its way, or `n` will be told that `p` doesn't. */
  ghost predicate Covered(s: Mesh, n: Node, p: Node)
    requires n in s.roles && p in s.roles
  {
    || AtLeast(s.roles[p], s.roles[n]) || HasAnnounce(s, n, p, s.roles[n])
    || HasOldStatus(s, p, n, s.roles[n]) || (p, n) !in s.ready
  }

  ghost predicate LinkInv(s: Mesh, n: Node, p: Node)
    requires n in s.roles && p in s.roles
  {
    && QueueInv(s, n, p)
    && ((n, p) !in s.ready && (p, n) in s.ready ==> HasStatus(s, p, n))
    && ((n, p) in s.ready ==> Covered(s, n, p))
  }

  ghost predicate Inv(s: Mesh) {
    Linked(s) && forall n, p :: (n, p) in s.links ==> LinkInv(s, n, p)
  }

  /** The one step that may leave a neighbour behind: taking newer roles from a hello while linked to others. */
  predicate LearnsFromHello(s: Mesh, step: Step)
    requires Enabled(s, step)
  {
    step.Takes? && (
      var n, from := step.n, step.from;
      var m := s.Queue(from, n)[0];
      m.Hello? && (n, from) !in s.ready && !Refuses(s.roles[n], m.a) && Beats(m.a, s.roles[n]) &&
      exists l :: l in s.ready && l.0 == n)
  }

  // ------------------------------------------------------------------------------------------------------- Steps

  /** What a node does: its roles may get newer, it may send, and take another node's hello. */
  ghost predicate Acts(s: Mesh, s': Mesh, n: Node) {
    && Linked(s) && n in s.roles && s'.roles.Keys == s.roles.Keys && s'.links == s.links && s'.config == s.config
    && (forall k :: k in s.roles && k != n ==> s'.roles[k] == s.roles[k])
    && AtLeast(s'.roles[n], s.roles[n])
    && (forall k, p :: k != n ==> s'.Queue(k, p) == s.Queue(k, p))
    && (forall l :: l in s'.queues && l !in s'.links ==> s'.queues[l] == [])
    && (forall p :: (n, p) in s.links ==> Appends(s.Queue(n, p), s'.Queue(n, p)))
  }

  ghost predicate Appends(q: seq<Message>, q': seq<Message>) {
    |q| <= |q'| && q'[..|q|] == q
  }

  /** What a node sends of the assignments follows what it knows. */
  ghost predicate Sent(q: seq<Message>, q': seq<Message>, own: Assignment)
    requires Appends(q, q')
  {
    forall m :: m in q'[|q|..] ==> !m.Hello? && AtLeast(own, m.a) && (m.Announce? ==> m.a.term > 0)
  }

  lemma LaterIsTransitive(a: Assignment, b: Assignment, c: Assignment)
    requires AtLeast(a, b) && AtLeast(b, c)
    ensures AtLeast(a, c)
  {}

  lemma StillInQueue(q: seq<Message>, q': seq<Message>)
    requires Appends(q, q')
    ensures forall m :: m in q ==> m in q'
    ensures q' == q + q'[|q|..]
  {}

  lemma QueueKept(s: Mesh, s': Mesh, n: Node, p: Node)
    requires Acts(s, s', n) && (n, p) in s.links && s'.ready == s.ready
    requires QueueInv(s, n, p) && Sent(s.Queue(n, p), s'.Queue(n, p), s'.roles[n])
    ensures QueueInv(s', n, p)
  {
    var q, q' := s.Queue(n, p), s'.Queue(n, p);
    StillInQueue(q, q');
    forall m | m in q' ensures AtLeast(s'.roles[n], m.a) && (m.Announce? ==> m.a.term > 0) {
      if m in q { LaterIsTransitive(s'.roles[n], s.roles[n], m.a); }
    }
    if (p, n) !in s.ready {
      assert q'[1..] == q[1..] + q'[|q|..];
    }
  }

  /** A link from another node to the one that acts. */
  lemma LinkToKept(s: Mesh, s': Mesh, n: Node, k: Node)
    requires Acts(s, s', n) && (k, n) in s.links && LinkInv(s, k, n) && s'.ready == s.ready
    ensures LinkInv(s', k, n)
  {
    StillInQueue(s.Queue(n, k), s'.Queue(n, k));
    assert s'.Queue(k, n) == s.Queue(k, n);
    assert QueueInv(s', k, n);
    if (k, n) in s.ready && (n, k) in s.ready {
      if AtLeast(s.roles[n], s.roles[k]) {
        LaterIsTransitive(s'.roles[n], s.roles[n], s.roles[k]);
      } else if HasOldStatus(s, n, k, s.roles[k]) {
        var m :| m in s.Queue(n, k) && m.Status? && Later(s.roles[k], m.a);
        assert m in s'.Queue(n, k);
      } else {
        var m :| m in s.Queue(k, n) && m.Announce? && AtLeast(m.a, s.roles[k]);
        assert m in s'.Queue(k, n);
      }
    }
  }

  /** A link from the node that acts: the other end still knows, or is told, what it knows now. */
  lemma LinkFromKept(s: Mesh, s': Mesh, n: Node, p: Node)
    requires Acts(s, s', n) && (n, p) in s.links && LinkInv(s, n, p) && s'.ready == s.ready
    requires Sent(s.Queue(n, p), s'.Queue(n, p), s'.roles[n])
    requires s'.roles[n] == s.roles[n] || ((n, p) in s.ready ==> HasAnnounce(s', n, p, s'.roles[n]))
    ensures LinkInv(s', n, p)
  {
    QueueKept(s, s', n, p);
    StillInQueue(s.Queue(n, p), s'.Queue(n, p));
    assert s'.Queue(p, n) == s.Queue(p, n);
    if (n, p) in s.ready && s'.roles[n] == s.roles[n] && HasAnnounce(s, n, p, s.roles[n]) {
      var m :| m in s.Queue(n, p) && m.Announce? && AtLeast(m.a, s.roles[n]);
      assert m in s'.Queue(n, p);
    }
  }

  lemma ActsKeeps(s: Mesh, s': Mesh, n: Node)
    requires Inv(s) && Acts(s, s', n) && s'.ready == s.ready
    requires forall p :: (n, p) in s.links ==> Sent(s.Queue(n, p), s'.Queue(n, p), s'.roles[n])
    requires s'.roles[n] == s.roles[n] || forall p :: (n, p) in s.ready ==> HasAnnounce(s', n, p, s'.roles[n])
    ensures Inv(s')
  {
    forall x, y | (x, y) in s'.links ensures LinkInv(s', x, y) {
      assert LinkInv(s, x, y);
      if y == n {
        LinkToKept(s, s', n, x);
      } else if x == n {
        LinkFromKept(s, s', n, y);
      } else {
        LinkElsewhere(s, s', n, x, y);
      }
    }
  }

  lemma LinkElsewhere(s: Mesh, s': Mesh, n: Node, x: Node, y: Node)
    requires Acts(s, s', n) && (x, y) in s.links && x != n && y != n && LinkInv(s, x, y) && s'.ready == s.ready
    ensures LinkInv(s', x, y)
  {
    assert s'.Queue(x, y) == s.Queue(x, y) && s'.Queue(y, x) == s.Queue(y, x);
  }

  lemma SentToAll(s: Mesh, n: Node, m: Message, k: Node, p: Node)
    requires Linked(s)
    ensures SendAll(s, n, m).Queue(k, p) == if k == n && (k, p) in s.ready then s.Queue(k, p) + [m] else s.Queue(k, p)
  {
    assert (k, p) in s.ready ==> (k, p) in s.links;
  }

  lemma SendAllActs(s: Mesh, n: Node, m: Message, a: Assignment)
    requires Linked(s) && n in s.roles && AtLeast(a, s.roles[n]) && !m.Hello? && AtLeast(a, m.a)
      && (m.Announce? ==> m.a.term > 0)
    ensures var s' := SendAll(s, n, m).(roles := s.roles[n := a]);
      && Acts(s, s', n) && s'.ready == s.ready
      && (forall p :: (n, p) in s.links ==> Sent(s.Queue(n, p), s'.Queue(n, p), a))
      && (m == Announce(a) ==> forall p :: (n, p) in s.ready ==> HasAnnounce(s', n, p, a))
  {
    var s' := SendAll(s, n, m).(roles := s.roles[n := a]);
    SentQueues(s, s', n, m);
    forall p | (n, p) in s.links ensures Sent(s.Queue(n, p), s'.Queue(n, p), a) {
      SentOne(s, s', n, p, m, a);
    }
    if m == Announce(a) {
      forall p | (n, p) in s.ready ensures HasAnnounce(s', n, p, a) {
        SentOne(s, s', n, p, m, a);
      }
    }
  }

  lemma SentOne(s: Mesh, s': Mesh, n: Node, p: Node, m: Message, a: Assignment)
    requires s'.Queue(n, p) == if (n, p) in s.ready then s.Queue(n, p) + [m] else s.Queue(n, p)
    requires !m.Hello? && AtLeast(a, m.a) && (m.Announce? ==> m.a.term > 0)
    ensures Appends(s.Queue(n, p), s'.Queue(n, p)) && Sent(s.Queue(n, p), s'.Queue(n, p), a)
    ensures (n, p) in s.ready && m == Announce(a) ==> HasAnnounce(s', n, p, a)
  {
    if (n, p) in s.ready { assert m in s'.Queue(n, p); }
  }

  lemma SentQueues(s: Mesh, s': Mesh, n: Node, m: Message)
    requires Linked(s) && s' == SendAll(s, n, m).(roles := s'.roles)
    ensures forall k: Node, p: Node ::
      s'.Queue(k, p) == if k == n && (k, p) in s.ready then s.Queue(k, p) + [m] else s.Queue(k, p)
    ensures forall l :: l in s'.queues && l !in s'.links ==> s'.queues[l] == []
  {
    var s1 := SendAll(s, n, m);
    forall k: Node, p: Node
      ensures s'.Queue(k, p) == if k == n && (k, p) in s.ready then s.Queue(k, p) + [m] else s.Queue(k, p)
    {
      SentToAll(s, n, m, k, p);
      assert s'.Queue(k, p) == s1.Queue(k, p);
    }
    forall l | l in s'.queues && l !in s'.links ensures s'.queues[l] == [] {
      assert s'.Queue(l.0, l.1) == s.Queue(l.0, l.1);
    }
  }

  lemma SendActs(s: Mesh, n: Node, p: Node, m: Message)
    requires Linked(s) && (n, p) in s.links && !m.Hello? && AtLeast(s.roles[n], m.a) && (m.Announce? ==> m.a.term > 0)
    ensures var s' := Send(s, n, p, m);
      && Acts(s, s', n) && s'.ready == s.ready
      && (forall k :: (n, k) in s.links ==> Sent(s.Queue(n, k), s'.Queue(n, k), s.roles[n]))
      && m in s'.Queue(n, p)
  {}

  lemma AdoptKeeps(s: Mesh, n: Node, a: Assignment)
    requires Inv(s) && n in s.roles && AtLeast(a, s.roles[n]) && a.term > 0
    ensures Inv(Adopt(s, n, a)) && Acts(s, Adopt(s, n, a), n) && Adopt(s, n, a).ready == s.ready
  {
    SendAllActs(s, n, Announce(a), a);
    ActsKeeps(s, Adopt(s, n, a), n);
  }

  lemma TellsStatusKeeps(s: Mesh, n: Node)
    requires Inv(s) && n in s.roles
    ensures Inv(SendAll(s, n, Status(s.roles[n])))
  {
    var s' := SendAll(s, n, Status(s.roles[n]));
    SendAllActs(s, n, Status(s.roles[n]), s.roles[n]);
    assert s'.(roles := s.roles[n := s.roles[n]]) == s';
    ActsKeeps(s, s', n);
  }

  /** What a node makes of an announcement, in one window: it ends with it or something later. */
  lemma HandleRolesKeeps(s: Mesh, n: Node, from: Node, a: Assignment, w: set<Assignment>)
    requires Inv(s) && Window(w, s.config) && Within(s, w) && (n, from) in s.links && a in w && a.term > 0
    ensures Inv(HandleRoles(s, n, from, a)) && Acts(s, HandleRoles(s, n, from, a), n)
    ensures AtLeast(HandleRoles(s, n, from, a).roles[n], a) && HandleRoles(s, n, from, a).ready == s.ready
  {
    var own := s.roles[n];
    assert NearAll(w, a) && NearAll(w, own);
    BeatsIsLater(a, own);
    BeatsIsLater(own, a);
    if Beats(a, own) {
      AdoptKeeps(s, n, a);
    } else if Beats(own, a) {
      SendActs(s, n, from, Announce(own));
      ActsKeeps(s, Send(s, n, from, Announce(own)), n);
    } else {
      ActsNothing(s, n);
    }
  }

  lemma ActsNothing(s: Mesh, n: Node)
    requires Linked(s) && n in s.roles
    ensures Acts(s, s, n)
  {}

  lemma HandleStatusKeeps(s: Mesh, n: Node, from: Node, a: Assignment, w: set<Assignment>)
    requires Inv(s) && Window(w, s.config) && Within(s, w) && (n, from) in s.links && a in w
    ensures Inv(HandleStatus(s, n, from, a)) && Acts(s, HandleStatus(s, n, from, a), n)
    ensures Later(s.roles[n], a) ==> HasAnnounce(HandleStatus(s, n, from, a), n, from, s.roles[n])
    ensures HandleStatus(s, n, from, a).ready == s.ready && HandleStatus(s, n, from, a).roles == s.roles
  {
    var own := s.roles[n];
    assert NearAll(w, a) && NearAll(w, own);
    BeatsIsLater(own, a);
    if Beats(own, a) {
      SendActs(s, n, from, Announce(own));
      ActsKeeps(s, Send(s, n, from, Announce(own)), n);
    } else {
      ActsNothing(s, n);
    }
  }

  /** The first message of a queue is gone. */
  function Drop(s: Mesh, from: Node, n: Node): Mesh
    requires s.Queue(from, n) != []
  {
    s.(queues := s.queues[(from, n) := s.Queue(from, n)[1..]])
  }

  lemma StillCovered(s: Mesh, from: Node, n: Node, x: Node, y: Node)
    requires s.Queue(from, n) != [] && x in s.roles && y in s.roles && Covered(s, x, y)
    requires var m := s.Queue(from, n)[0];
      && ((x, y) == (from, n) && m.Announce? && AtLeast(m.a, s.roles[x]) ==> AtLeast(s.roles[y], s.roles[x]))
      && ((y, x) == (from, n) && m.Status? && Later(s.roles[x], m.a) ==>
          HasAnnounce(s, x, y, s.roles[x]) && (x, y) != (from, n))
    ensures Covered(Drop(s, from, n), x, y)
  {
    var q, s' := s.Queue(from, n), Drop(s, from, n);
    assert q == [q[0]] + q[1..];
    assert forall k: Node, l: Node :: (k, l) != (from, n) ==> s'.Queue(k, l) == s.Queue(k, l);
    if HasAnnounce(s, x, y, s.roles[x]) {
      var m :| m in s.Queue(x, y) && m.Announce? && AtLeast(m.a, s.roles[x]);
      if m in s'.Queue(x, y) {} else { assert m == q[0]; }
    } else if HasOldStatus(s, y, x, s.roles[x]) {
      var m :| m in s.Queue(y, x) && m.Status? && Later(s.roles[x], m.a);
      assert m in s'.Queue(y, x);
    }
  }

  /** A message that isn't a hello leaves its queue once its reader did what it says. */
  lemma DropKeeps(s: Mesh, from: Node, n: Node)
    requires Inv(s) && (from, n) in s.links && (n, from) in s.ready && s.Queue(from, n) != []
    requires var m := s.Queue(from, n)[0];
      && (m.Announce? ==> AtLeast(s.roles[n], m.a))
      && (m.Status? && Later(s.roles[n], m.a) ==> HasAnnounce(s, n, from, s.roles[n]))
    ensures Inv(Drop(s, from, n))
  {
    var s' := Drop(s, from, n);
    forall x, y | (x, y) in s'.links ensures LinkInv(s', x, y) {
      assert LinkInv(s, x, y);
      if (x, y) in s.ready {
        if (x, y) == (from, n) && s.Queue(from, n)[0].Announce? && AtLeast(s.Queue(from, n)[0].a, s.roles[x]) {
          LaterIsTransitive(s.roles[n], s.Queue(from, n)[0].a, s.roles[from]);
        }
        StillCovered(s, from, n, x, y);
      }
      QueueWithoutFirst(s, from, n, x, y);
    }
  }

  lemma QueueWithoutFirst(s: Mesh, from: Node, n: Node, x: Node, y: Node)
    requires Linked(s) && (from, n) in s.links && (n, from) in s.ready && s.Queue(from, n) != []
    requires (x, y) in s.links && LinkInv(s, x, y)
    ensures QueueInv(Drop(s, from, n), x, y)
    ensures (x, y) !in s.ready && (y, x) in s.ready ==> HasStatus(Drop(s, from, n), y, x)
  {
    var s' := Drop(s, from, n);
    assert (x, y) != (from, n) ==> s'.Queue(x, y) == s.Queue(x, y);
    assert (y, x) != (from, n) ==> s'.Queue(y, x) == s.Queue(y, x);
    if (x, y) !in s.ready && (y, x) in s.ready {
      var m :| m in s.Queue(y, x) && m.Status?;
      assert m in s'.Queue(y, x);
    }
  }

  lemma SendDrops(s: Mesh, n: Node, from: Node, m: Message)
    requires n != from && s.Queue(from, n) != []
    ensures Send(s, n, from, m).Queue(from, n) == s.Queue(from, n)
    ensures Send(Drop(s, from, n), n, from, m) == Drop(Send(s, n, from, m), from, n)
  {
    var a, b := Send(Drop(s, from, n), n, from, m), Drop(Send(s, n, from, m), from, n);
    assert a.queues == b.queues;
  }

  lemma AdoptDrops(s: Mesh, n: Node, from: Node, a: Assignment)
    requires n in s.roles && n != from && (from, n) in s.links && s.Queue(from, n) != []
    ensures Adopt(s, n, a).Queue(from, n) == s.Queue(from, n)
    ensures Adopt(Drop(s, from, n), n, a) == Drop(Adopt(s, n, a), from, n)
  {
    var x, y := Adopt(Drop(s, from, n), n, a), Drop(Adopt(s, n, a), from, n);
    assert x.queues.Keys == y.queues.Keys;
    assert x.queues == y.queues;
  }

  lemma HandleRolesDrops(s: Mesh, n: Node, from: Node, a: Assignment)
    requires n in s.roles && n != from && (from, n) in s.links && s.Queue(from, n) != []
    ensures HandleRoles(s, n, from, a).Queue(from, n) == s.Queue(from, n)
    ensures HandleRoles(Drop(s, from, n), n, from, a) == Drop(HandleRoles(s, n, from, a), from, n)
  {
    SendDrops(s, n, from, Announce(s.roles[n]));
    AdoptDrops(s, n, from, a);
  }

  lemma TakesAnnounceKeeps(s: Mesh, n: Node, from: Node, w: set<Assignment>)
    requires Inv(s) && Window(w, s.config) && Within(s, w) && Enabled(s, Takes(n, from))
    requires (n, from) in s.ready && s.Queue(from, n)[0].Announce?
    ensures Inv(Next(s, Takes(n, from)))
  {
    var m := s.Queue(from, n)[0];
    assert LinkInv(s, from, n) && m in s.Queue(from, n);
    HandleRolesKeeps(s, n, from, m.a, w);
    HandleRolesDrops(s, n, from, m.a);
    DropKeeps(HandleRoles(s, n, from, m.a), from, n);
  }

  lemma TakesStatusKeeps(s: Mesh, n: Node, from: Node, w: set<Assignment>)
    requires Inv(s) && Window(w, s.config) && Within(s, w) && Enabled(s, Takes(n, from))
    requires (n, from) in s.ready && s.Queue(from, n)[0].Status?
    ensures Inv(Next(s, Takes(n, from)))
  {
    var m := s.Queue(from, n)[0];
    assert LinkInv(s, from, n) && m in s.Queue(from, n);
    HandleStatusKeeps(s, n, from, m.a, w);
    SendDrops(s, n, from, Announce(s.roles[n]));
    DropKeeps(HandleStatus(s, n, from, m.a), from, n);
  }

  /** A node took a hello: it may know newer roles, the other node is ready, and gets a status. */
  ghost predicate TookHello(s: Mesh, s': Mesh, n: Node, from: Node) {
    && Linked(s) && (from, n) in s.links && (n, from) !in s.ready && s.Queue(from, n) != []
    && s.Queue(from, n)[0].Hello?
    && n in s.roles && s'.roles.Keys == s.roles.Keys && AtLeast(s'.roles[n], s.roles[n])
    && AtLeast(s'.roles[n], s.Queue(from, n)[0].a)
    && s' == s.(roles := s.roles[n := s'.roles[n]], ready := s.ready + {(n, from)}, queues := s'.queues)
    && s'.Queue(from, n) == s.Queue(from, n)[1..]
    && s'.Queue(n, from) == s.Queue(n, from) + [Status(s'.roles[n])]
    && (forall k: Node, p: Node :: (k, p) != (from, n) && (k, p) != (n, from) ==> s'.Queue(k, p) == s.Queue(k, p))
  }

  /** The window refuses nobody. */
  lemma HelloIsTaken(s: Mesh, n: Node, from: Node, w: set<Assignment>)
    requires Inv(s) && Window(w, s.config) && Within(s, w) && Enabled(s, Takes(n, from))
    requires (n, from) !in s.ready
    ensures s.Queue(from, n)[0].Hello? && !Refuses(s.roles[n], s.Queue(from, n)[0].a)
    ensures TookHello(s, Next(s, Takes(n, from)), n, from)
  {
    assert LinkInv(s, from, n);
    var m, own := s.Queue(from, n)[0], s.roles[n];
    assert m in s.Queue(from, n) && NearAll(w, m.a);
    BeatsIsLater(m.a, own);
    BeatsIsLater(own, m.a);
    SerialNewerIsOrder(m.a.term, own.term);
    HelloResult(s, n, from, m.a);
  }

  lemma HelloResult(s: Mesh, n: Node, from: Node, a: Assignment)
    requires Linked(s) && (from, n) in s.links && (n, from) !in s.ready && s.Queue(from, n) != [] && n in s.roles
    requires s.Queue(from, n)[0] == Hello(a) && !Refuses(s.roles[n], a)
    requires Beats(a, s.roles[n]) <==> Later(a, s.roles[n])
    ensures TookHello(s, HandleHello(Drop(s, from, n), n, from, a), n, from)
  {
    var s1 := Drop(s, from, n);
    var s' := HandleHello(s1, n, from, a);
    assert s'.ready == s.ready + {(n, from)};
    assert s1.Queue(n, from) == s.Queue(n, from);
    assert s'.Queue(from, n) == s1.Queue(from, n);
  }

  lemma HelloLinkTo(s: Mesh, s': Mesh, n: Node, from: Node)
    requires TookHello(s, s', n, from) && LinkInv(s, from, n)
    ensures LinkInv(s', from, n)
  {
    var m := Status(s'.roles[n]);
    assert m in s'.Queue(n, from);
    assert forall x :: x in s'.Queue(from, n) ==> x in s.Queue(from, n);
    if (from, n) in s'.ready && !AtLeast(s'.roles[n], s'.roles[from]) {
      assert Later(s'.roles[from], m.a);
    }
  }

  lemma HelloLinkFrom(s: Mesh, s': Mesh, n: Node, from: Node)
    requires TookHello(s, s', n, from) && LinkInv(s, n, from) && LinkInv(s, from, n)
    ensures LinkInv(s', n, from)
  {
    var q, q' := s.Queue(n, from), s'.Queue(n, from);
    forall m | m in q' ensures AtLeast(s'.roles[n], m.a) && (m.Announce? ==> m.a.term > 0) {
      if m in q { LaterIsTransitive(s'.roles[n], s.roles[n], m.a); }
    }
    if (from, n) !in s.ready {
      assert q'[1..] == q[1..] + [Status(s'.roles[n])];
    } else if !AtLeast(s.roles[from], s'.roles[n]) {
      var m :| m in s.Queue(from, n) && m.Status?;
      assert s.Queue(from, n) == [s.Queue(from, n)[0]] + s'.Queue(from, n);
      assert m in s'.Queue(from, n) && AtLeast(s.roles[from], m.a);
      LaterIsTransitive(s'.roles[n], s.roles[from], m.a);
    }
  }

  lemma HelloElsewhere(s: Mesh, s': Mesh, n: Node, from: Node, x: Node, y: Node)
    requires Inv(s) && TookHello(s, s', n, from) && (x, y) in s.links && (x, y) != (n, from) && (x, y) != (from, n)
    requires x == n && s'.roles[n] != s.roles[n] ==> (x, y) !in s.ready
    ensures LinkInv(s', x, y)
  {
    assert LinkInv(s, x, y) && (y, x) in s.links;
    assert s'.Queue(x, y) == s.Queue(x, y) && s'.Queue(y, x) == s.Queue(y, x);
    if x == n {
      forall m | m in s'.Queue(n, y) ensures AtLeast(s'.roles[n], m.a) {
        LaterIsTransitive(s'.roles[n], s.roles[n], m.a);
      }
    } else if y == n && AtLeast(s.roles[n], s.roles[x]) {
      LaterIsTransitive(s'.roles[n], s.roles[n], s.roles[x]);
    }
  }

  lemma TakesHelloKeeps(s: Mesh, n: Node, from: Node, w: set<Assignment>)
    requires Inv(s) && Window(w, s.config) && Within(s, w) && Enabled(s, Takes(n, from))
    requires (n, from) !in s.ready && !LearnsFromHello(s, Takes(n, from))
    ensures Inv(Next(s, Takes(n, from)))
  {
    var s' := Next(s, Takes(n, from));
    HelloIsTaken(s, n, from, w);
    forall x, y | (x, y) in s'.links ensures LinkInv(s', x, y) {
      if (x, y) == (n, from) {
        HelloLinkFrom(s, s', n, from);
      } else if (x, y) == (from, n) {
        HelloLinkTo(s, s', n, from);
      } else {
        HelloElsewhere(s, s', n, from, x, y);
      }
    }
  }

  lemma ConnectsKeeps(s: Mesh, n: Node, p: Node)
    requires Inv(s) && Enabled(s, Connects(n, p))
    ensures Inv(Next(s, Connects(n, p)))
  {
    var s' := Next(s, Connects(n, p));
    assert (p, n) !in s.links && (n, p) !in s.ready && (p, n) !in s.ready;
    forall x, y | (x, y) in s'.links ensures LinkInv(s', x, y) {
      if (x, y) != (n, p) && (x, y) != (p, n) { SameLink(s, s', x, y); }
    }
  }

  lemma SameLink(s: Mesh, s': Mesh, x: Node, y: Node)
    requires Linked(s) && (x, y) in s.links && LinkInv(s, x, y) && x in s'.roles && y in s'.roles
    requires s'.roles[x] == s.roles[x] && s'.roles[y] == s.roles[y]
    requires s'.Queue(x, y) == s.Queue(x, y) && s'.Queue(y, x) == s.Queue(y, x)
    requires ((x, y) in s'.ready <==> (x, y) in s.ready) && ((y, x) in s'.ready <==> (y, x) in s.ready)
    ensures LinkInv(s', x, y)
  {}

  lemma DisconnectsKeeps(s: Mesh, n: Node, p: Node)
    requires Inv(s) && Enabled(s, Disconnects(n, p))
    ensures Inv(Next(s, Disconnects(n, p)))
  {
    var s' := Next(s, Disconnects(n, p));
    forall x, y | (x, y) in s'.links ensures LinkInv(s', x, y) {
      SameLink(s, s', x, y);
    }
  }

  lemma RestartsKeeps(s: Mesh, n: Node)
    requires Inv(s) && Enabled(s, Restarts(n))
    ensures Inv(Next(s, Restarts(n)))
  {
    var s' := Next(s, Restarts(n));
    forall x, y | (x, y) in s'.links ensures LinkInv(s', x, y) {
      SameLink(s, s', x, y);
    }
  }

  lemma StepKeeps(s: Mesh, step: Step, w: set<Assignment>)
    requires Inv(s) && Window(w, s.config) && Within(s, w) && Enabled(s, step) && !LearnsFromHello(s, step)
    ensures Inv(Next(s, step))
  {
    match step
    case Connects(n, p) => ConnectsKeeps(s, n, p);
    case Disconnects(n, p) => DisconnectsKeeps(s, n, p);
    case Restarts(n) => RestartsKeeps(s, n);
    case ChangesRoles(n, registry, clock) => AdoptKeeps(s, n, Assignment(s.roles[n].term + 1, registry, clock));
    case TellsStatus(n) => TellsStatusKeeps(s, n);
    case Takes(n, from) =>
      assert LinkInv(s, from, n);
      if (n, from) !in s.ready {
        TakesHelloKeeps(s, n, from, w);
      } else {
        assert s.Queue(from, n)[0] in s.Queue(from, n);
        if s.Queue(from, n)[0].Announce? {
          TakesAnnounceKeeps(s, n, from, w);
        } else {
          TakesStatusKeeps(s, n, from, w);
        }
      }
  }

  // -------------------------------------------------------------------------------------------------- Whole runs

  /** Steps whose assignments all are in one window, and in which no node learns of newer roles from a hello while it
      has neighbours. */
  ghost predicate Run(s: Mesh, steps: seq<Step>, s': Mesh, w: set<Assignment>)
    decreases |steps|
  {
    Window(w, s.config) && Within(s, w) &&
    if steps == [] then s' == s
    else Enabled(s, steps[0]) && !LearnsFromHello(s, steps[0]) && Run(Next(s, steps[0]), steps[1..], s', w)
  }

  /** A mesh that starts: nodes with the configured roles, nothing connected. */
  ghost predicate Initial(s: Mesh) {
    s.links == {} && s.ready == {} && s.queues == map[] && forall n :: n in s.roles ==> s.roles[n] == s.config
  }

  lemma {:induction false} RunKeeps(s: Mesh, steps: seq<Step>, s': Mesh, w: set<Assignment>)
    requires Inv(s) && Run(s, steps, s', w)
    ensures Inv(s')
    decreases |steps|
  {
    if steps != [] {
      StepKeeps(s, steps[0], w);
      RunKeeps(Next(s, steps[0]), steps[1..], s', w);
    }
  }

  /** In every run, a neighbour knows at least what a node knows, or it's on its way, or the node will be asked for
      it. */
  lemma NeighboursAreTold(s: Mesh, steps: seq<Step>, s': Mesh, w: set<Assignment>, n: Node, p: Node)
    requires Initial(s) && Run(s, steps, s', w) && (n, p) in s'.ready
    ensures n in s'.roles && p in s'.roles && Covered(s', n, p)
  {
    RunKeeps(s, steps, s', w);
    assert (n, p) in s'.links && LinkInv(s', n, p);
  }

  /** Nodes linked one to the next, each pair with nothing on its way. */
  ghost predicate QuietPath(s: Mesh, path: seq<Node>) {
    path != [] && path[0] in s.roles && forall i :: 0 < i < |path| ==> QuietLink(s, path, i)
  }

  predicate QuietLink(s: Mesh, path: seq<Node>, i: nat)
    requires 0 < i < |path|
  {
    var n, p := path[i - 1], path[i];
    (n, p) in s.links && s.Queue(n, p) == [] && s.Queue(p, n) == []
  }

  /** Agreement: once nothing is on its way between them, all the nodes linked to one another have the same roles. */
  lemma {:induction false} LinkedNodesAgree(s: Mesh, steps: seq<Step>, s': Mesh, w: set<Assignment>, path: seq<Node>)
    requires Initial(s) && Run(s, steps, s', w) && QuietPath(s', path)
    ensures forall n :: n in path ==> n in s'.roles && s'.roles[n] == s'.roles[path[0]]
    decreases |path|
  {
    if |path| > 1 {
      var last := |path| - 1;
      forall i | 0 < i < last ensures QuietLink(s', path[..last], i) {
        assert QuietLink(s', path, i);
      }
      LinkedNodesAgree(s, steps, s', w, path[..last]);
      assert QuietLink(s', path, last);
      RunKeeps(s, steps, s', w);
      QuietLinkAgrees(s', path[last - 1], path[last]);
      assert path == path[..last] + [path[last]];
    }
  }

  lemma QuietLinkAgrees(s: Mesh, n: Node, p: Node)
    requires Inv(s) && (n, p) in s.links && s.Queue(n, p) == [] && s.Queue(p, n) == []
    ensures n in s.roles && p in s.roles && s.roles[n] == s.roles[p]
  {
    assert (p, n) in s.links;
    assert LinkInv(s, n, p) && LinkInv(s, p, n);
  }

  /** Every time a node takes other roles they are later than the ones it had, until it restarts. */
  lemma RolesGoForward(s: Mesh, step: Step, w: set<Assignment>, n: Node)
    requires Inv(s) && Window(w, s.config) && Within(s, w) && Enabled(s, step) && n in s.roles && step != Restarts(n)
    ensures n in Next(s, step).roles && AtLeast(Next(s, step).roles[n], s.roles[n])
  {
    if step.Takes? && step.n == n {
      var m := s.Queue(step.from, n)[0];
      assert m in s.Queue(step.from, n) && NearAll(w, m.a);
      BeatsIsLater(m.a, s.roles[n]);
    }
  }
}
